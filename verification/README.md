# Mosey, modelled and proved in Dafny

Mosey shares a terminal: a session engine runs a program on a PTY, clients attach to it
over some transport, and a wallet-rooted delegation scheme with an on-chain grant table
decides what each client may do. This project models the parts of Mosey whose correctness
is not visible in any single function, and proves what they keep over every input and
every interleaving. `dafny verify dfyconfig.toml` checks all of it.

## The components

**Session engine** (`SessionModel`, `SessionInvariants`, `SessionEffects`, `Coverage`, `Vterm`,
`Engine`). `SessionModel` is a
state machine with one step per critical section: admission, each control message, removal,
shutdown, one PTY read (filter, then ring), one broadcast, one read of the ring for a
replay, one send of that replay, one receive from a client's channel. A run is any
sequence of these steps. `SessionInvariants` proves what every run keeps about the writer seat, write
permission, identifiers, the modes and the terminal size. `SessionEffects` says the converse:
what each step brings about, field by field. `Coverage` proves that no
interleaving loses output between a client's replay and its live stream. `Vterm` is the
same engine as mutable objects with loops over the registry map; each method is proved to
take exactly the step of the model that it stands for, whatever order the map is walked in.
`Engine` adds what the goroutines keep between critical sections and runs any steps in any
order on these objects.

**Buffers** (`OutputRing`, `InputQueue`). The sequence-numbered ring refines the full byte
history; the bounded input queue accounts for every byte it accepted.

**Device Attributes filter** (`DeviceAttributes`). The three-state byte machine that answers
Device Attributes queries (section 8.3.24 of ECMA-48, and DEC's private secondary form)
agrees with a definition over the whole input, however the input is cut into reads.

**Delegation** (`Base58`, `Text`, `Caps`, `Delegation`, `Authority`). Base58 as radix
conversion, the canonical text and its strict parser, and `Fold` matched with an inductive
relation that says who wields which capabilities. Signature checking is a parameter.

**Grant table** (`GrantTable`, `Program`, `Source`, `RateLimiter`, `Admission`). The on-chain
program's account objects, the snapshot built from them, the token bucket, and the admission
policy. `Admission` says exactly who is admitted and exactly when the chain is asked, and
composes all of it: runs of transactions, clock ticks, refreshes and admissions, in which
whoever is admitted was entitled and whoever is entitled is admitted.

**Wire formats** (`Wire`, `Message`, `Compiler`, `Varints`, `Framing`). The compiler from
instructions to Solana legacy messages, with a decoder that defines what the bytes mean, and
the varint-delimited framing of the TypeScript client.

## Where code and comments differ

The model follows the code.

- `streambuf/output_ring.go` line 91 says that a first sequence number of 0 marks a ring never written to; a new ring starts at 1.
- `wallet/base58.go` line 68 calls decoding the inverse of encoding; empty bytes encode to "1", which decodes to one zero byte. `Base58.DecodeAfterEncode` and `Base58.EncodeAfterDecode` state exactly when the round trips hold.
- `clients/typescript/src/proto.ts` line 30 says that values overflowing uint64 throw; ten bytes are accepted, so values below 2^70 decode. `Varints.VarintRoundTrip` states the bound.
- `walletsolana/tx.go` checks no size; `Message.CompilationPreservesMeaning` states exactly which instruction lists survive, and `Message.BigCallIsLost` gives one that does not.

## Model

| member | source | states |
|---|---|---|
| `Coverage.GapFreeAttach` | vterm/vterm.go:203-229 | In every reachable state, for a client whose replay raised no error and has been sent and that dropped nothing, every byte from max(resume floor, the ring's first sequence number at replay) up to the last broadcast is on or was taken from its channel, with the right value |
| `Coverage.ClientsSeeFilteredOutput` | vterm/session.go:461-476 | In every reachable state the ring's history plus the held bytes is all PTY output read so far with its Device Attributes queries deleted, and the bytes written back are exactly the replies owed |
| `Coverage.Always` | vterm/session.go:432-476 | The coverage invariant behind both: chunk in flight, unsent replay and sent chunks carry the history bytes their sequence numbers claim |
| `Coverage.OfferReplay` | vterm/vterm.go:220-229 | Whatever was broadcast between reading the ring and sending, the replay fills everything up to the moment of joining |
| `Coverage.AttachSeesTheRing` | vterm/vterm.go:198-229 | In every reachable state a client is behind only if it claimed a position whose byte had left the ring; a fresh attach (floor 0) never is, and once its replay is sent and nothing dropped it has every byte from its floor that the ring holds, and every one broadcast since |
| `Coverage.BehindExactly` | vterm/vterm.go:223-229 | When the ring is read for a client, it is behind if and only if its floor is above 0 and floor + capacity is at most the bytes written; something is left to send if and only if it is not behind and the ring has a byte at or after its floor |
| `Coverage.ReadsAlways` | vterm/vterm.go:220-229 | In every reachable state each replay read the ring at one moment after its client joined, and its start and its verdict are those of that moment |
| `SessionInvariants.Always` | vterm/session.go:153-219 | In every reachable state, across mode switches: the seat is vacant or held by a registered client that may write, ids run from 1 to the counter, the mode is never unspecified, sizes are whole, pending resizes are disjoint from connected remotes, and the requested size is the minimum over those who reported |
| `SessionInvariants.SeatNeverStale` | vterm/session.go:171-176 | The stale-seat check at admission never changes the seat |
| `SessionInvariants.MessageAdministers` | vterm/control.go:41-115 | No control message admits or removes a client, touches its output or takes back a kick |
| `SessionInvariants.NeverReused` | vterm/session.go:191-211 | An id at or below the counter that is registered later was registered all along, for the same remote and identity |
| `SessionInvariants.WriteProvenance` | vterm/session.go:379-394 | A client that may write was admitted with Write or Owner, or was promoted while registered by an Owner |
| `SessionInvariants.PrimaryIsOnlyWriter` | vterm/session.go:170-181 | In a run that stays in PrimaryObserver only the seat holder may write |
| `SessionInvariants.SupersedeKeepsNewest` | vterm/session.go:162-169 | In a run that stays in Supersede at most one client is not kicked, and it has the largest id |
| `SessionInvariants.ExclusiveAdmitsOne` | vterm/session.go:157-160 | In a run that stays in Exclusive at most one client is registered |
| `SessionInvariants.AgreeKeeps` | vterm/session.go:297-306 | Asking for the agreed size restores the geometry invariant from any registry that keeps the rest |
| `SessionEffects.StartsAsAsked` | vterm/vterm.go:115-136 | A session starts empty in the mode asked for, and an unspecified mode is Supersede |
| `SessionEffects.AdmitExactly` | vterm/session.go:153-219 | In every state that keeps the invariant: an occupied Exclusive session is left as it was; otherwise the next id names a newcomer with the size that waited for it, who may write if and only if its identity holds Owner or Write and, in PrimaryObserver, no registered client holds the seat; everyone else stays, kicked if and only if the mode is Supersede |
| `SessionEffects.PrimaryFillsVacancy` | vterm/session.go:170-181 | In a run that stays in PrimaryObserver, a newcomer may write, and takes the seat, if and only if it holds Owner or Write and no registered client may write |
| `SessionEffects.ResizeExactly` | vterm/control.go:41-139 | A resize with both dimensions from Owner or Resize sets the newest client of the remote and requests the new minimum, or waits for a client; any other changes nothing |
| `SessionEffects.SetModeExactly` | vterm/control.go:58-69 | Owner and a specified mode set the mode and nothing else; otherwise nothing changes |
| `SessionEffects.DemoteExactly` | vterm/session.go:332-344 | The newest client of the remote may no longer write and vacates the seat if it held it; nobody else is affected |
| `SessionEffects.PromoteExactly` | vterm/session.go:379-394 | An Owner's target may write; in PrimaryObserver it takes the seat and only the previous holder loses write permission; otherwise seat and others stay |
| `SessionEffects.KickExactly` | vterm/session.go:400-408 | An Owner's registered target is kicked and nothing else changes |
| `SessionEffects.RemoveExactly` | vterm/session.go:415-426 | Exactly that client leaves, its seat falls vacant, and the size is the minimum of those left who reported |
| `SessionEffects.BroadcastExactly` | vterm/session.go:432-442 | The chunk in flight is offered to every registered client: queued last if fewer than 256 wait, else counted as dropped |
| `SessionEffects.SendReplayExactly` | vterm/vterm.go:223-229 | A replay that found something is offered once, by the same rule; otherwise nothing happens |
| `SessionEffects.DeliverExactly` | vterm/vterm.go:235-252 | Chunks leave a channel one at a time in the order they went in |
| `SessionModel.MinGeometry` | vterm/session.go:277-291 | The component-wise minimum over reporting clients exists, independent of order; 0x0 when nobody reported |
| `SessionModel.MinUnique` | vterm/session.go:277-291 | That minimum is unique |
| `SessionModel.Latest` | vterm/session.go:226-237 | Some id exactly when the remote has a client, and then the largest of its ids |
| `Vterm.SessionClient.constructor` | vterm/session.go:191-210 | A new client's fields are those of the model's new client record |
| `Vterm.SessionClient.Send` | vterm/session.go:436-440 | A non-blocking send queues the chunk, or counts a drop when the channel is full |
| `Vterm.SessionClient.SendReplay` | vterm/vterm.go:223-229 | Sending a replay is the model's, with the same drop rule |
| `Vterm.Registry.constructor` | vterm/vterm.go:115-136 | A new session is the model's initial state; an unspecified mode means Supersede |
| `Vterm.Registry.MinGeometryLocked` | vterm/session.go:277-291 | The loop over the map, in any order, computes the minimum over reporters |
| `Vterm.Registry.ClientByRemoteIDLocked` | vterm/session.go:226-237 | The loop, in any order, finds the newest client of a remote, or nothing when there is none |
| `Vterm.Registry.KickEveryone` | vterm/session.go:163-165 | The loop kicks every client and changes nothing else |
| `Vterm.Registry.Register` | vterm/session.go:191-217 | Takes the model's enrolment step: next id, drained pending size, seat, requested size |
| `Vterm.Registry.AddClient` | vterm/session.go:153-219 | Takes the admission step that `SessionEffects.AdmitExactly` characterises; refuses exactly in an occupied Exclusive session or an unspecified mode, and otherwise returns a new client under the next id |
| `Vterm.Registry.ApplyResizeForRemote` | vterm/session.go:253-272 | Takes the resize step: the newest client's size and the new minimum, or a pending entry |
| `Vterm.Registry.DemoteRemote` | vterm/session.go:332-344 | Takes the demotion step; reports whether the remote was connected |
| `Vterm.Registry.PromoteClient` | vterm/session.go:379-394 | Takes the promotion step, unseating the previous primary; reports whether the target was registered |
| `Vterm.Registry.KickClient` | vterm/session.go:400-408 | Takes the kick step; reports whether the target was registered |
| `Vterm.Registry.HandleControl` | vterm/control.go:41-115 | Each message takes the model's dispatch step, behind the capability that message needs |
| `Vterm.Registry.RemoveClient` | vterm/session.go:415-426 | Takes the departure step: a registered client is kicked and forgotten, its seat falls vacant, and the size is recomputed from those left |
| `Vterm.Registry.Shutdown` | vterm/session.go:447-455 | Everyone is kicked and the registry and seat are cleared |
| `Vterm.Registry.Broadcast` | vterm/session.go:432-442 | The loop offers the chunk to every client exactly once |
| `Vterm.Registry.Take` | vterm/vterm.go:235-252 | The oldest queued chunk leaves the channel; nothing happens to an empty one |
| `Vterm.Registry.Replay` | vterm/vterm.go:220-223 | Reading the ring after registration takes the model's replay step |
| `Vterm.Registry.SendReplay` | vterm/vterm.go:223-229 | Sending what was read takes the model's send step |
| `Vterm.OutputPump.Read` | vterm/session.go:464-475 | One PTY read takes the model's pump step and yields the reply and the chunk to broadcast |
| `Vterm.PumpRound` | vterm/session.go:461-485 | One undisturbed round of the pump is a read step followed by a broadcast step |
| `Engine.RunSession` | vterm/vterm.go:115-229 | Any steps in any order on registry, pump and goroutine variables, from a new session, end in the state where the model's run ends, with the registry and coverage invariants |
| `OutputRing.Ring.Write` | streambuf/output_ring.go:59-86 | The ring keeps exactly the last min(capacity, total) bytes of everything written, and returns the sequence number of the first new byte |
| `OutputRing.Ring.State` | streambuf/output_ring.go:102-113 | The cursors are those of that window |
| `OutputRing.Ring.From` | streambuf/output_ring.go:130-158 | Computes the replay that `OutputRing.FreshReplay` and `OutputRing.ReplayExactly` give in numbers, for position 0 and for every other |
| `OutputRing.FreshReplay` | streambuf/output_ring.go:115-144 | From 0 the replay is the last min(capacity, total) bytes of everything written, and not behind |
| `OutputRing.ReplayExactly` | streambuf/output_ring.go:120-158 | From a position above 0 the replay is behind if and only if position + capacity is at most the total; its data are then the last capacity bytes, else the history from the position on, else nothing |
| `OutputRing.ResumeIsLossless` | streambuf/output_ring.go:115-158 | The first n bytes followed by the replay from n+1 are the whole history if and only if n+1 is not before the ring; otherwise the replay says it is behind |
| `OutputRing.ReplaysCompose` | streambuf/output_ring.go:130-158 | A second replay from where the first one ended carries exactly what was written in between |
| `InputQueue.Queue.Enqueue` | streambuf/input_queue.go:87-131 | The call does what the policy says, evicting the fewest whole chunks |
| `InputQueue.Queue.Drain` | streambuf/input_queue.go:136-143 | All chunks leave in order and the queue is empty |
| `InputQueue.EnqueueDropsFromFront` | streambuf/input_queue.go:81-131 | After an accepted chunk the content is old content plus chunk minus exactly its first dropped bytes; a full queue is unchanged; capacity is never exceeded |
| `InputQueue.EnqueueCosts` | streambuf/input_queue.go:87-131 | A chunk is refused if and only if the policy is DropNew and it does not fit; one that fits costs nothing; under DropOldest an oversized one leaves its own tail and any other evicts a non-empty run of whole chunks of which one fewer would not do |
| `InputQueue.RunConserves` | streambuf/input_queue.go:87-143 | Over any run, accepted bytes are cut in order into drained, dropped and still-queued blocks |
| `DeviceAttributes.Responder.Process` | vterm/queries.go:43-104 | One call is the byte machine run over its input |
| `DeviceAttributes.StreamingEqualsWhole` | vterm/queries.go:40-104 | For every input and every way of cutting it, output plus held bytes is the input with its queries deleted, and the responses are the matching replies in order |
| `DeviceAttributes.StripKeepsOutside` | vterm/queries.go:77-89 | Deleting front to back keeps, in order, exactly the bytes that lie in no occurrence of a query |
| `DeviceAttributes.RepliesAnswerOccurrences` | vterm/queries.go:77-89 | The replies are those to the queries that occur in the input, each once, by where they start |
| `DeviceAttributes.OccurrencesDisjoint` | vterm/queries.go:77-82 | Occurrences of the four queries never overlap |
| `DeviceAttributes.Spelled` | vterm/queries.go:33-38 | The four queries and the two replies as text |
| `Base58.Encode` | wallet/base58.go:44-66 | The division loop, the leading ones and the in-place reversal compute radix conversion of the bytes |
| `Base58.Decode` | wallet/base58.go:69-85 | The accumulating loop computes radix conversion back, or fails on a character outside the alphabet |
| `Base58.ReverseInPlace` | wallet/base58.go:59-61 | The array ends up reversed |
| `Base58.ConvertInverse` | wallet/base58.go:44-85 | Radix conversion that keeps leading zeros is undone by converting back |
| `Base58.AlphabetExactly` | wallet/base58.go:10-11 | The 58 symbols are the digits and letters without 0, O, I and l, in strictly increasing order of their codes |
| `Base58.EncodesTheNumber` | wallet/base58.go:44-66 | The text is the base-58 numeral of the number that the bytes write in base 256, with one leading 1 for each leading zero byte |
| `Base58.DecodeAfterEncode` | wallet/base58.go:44-85 | Decoding an encoding gives the bytes back if and only if there are any |
| `Base58.EncodeAfterDecode` | wallet/base58.go:44-85 | Encoding a decoding gives the text back if and only if it is not empty |
| `Caps.SubsetIsOrder` | wallet/caps.go:32-36 | Subset is a partial order, and is what Has says read the other way |
| `Caps.ParseCaps` | wallet/caps.go:62-83 | The token loop computes the strict parser |
| `Caps.ParseInvertsRender` | wallet/caps.go:41-83 | A text parses to caps if and only if they have only known bits and render to that text |
| `Caps.RenderIgnoresUnknown` | wallet/caps.go:41-56 | Rendering depends on the known bits alone |
| `Caps.Texts` | wallet/caps.go:22-56 | The text of each of the eight sets of known bits |
| `Delegation.ParseLinesExact` | wallet/delegation.go:90-167 | Nine lines parse to fields if and only if the fields are well formed and every line is the rendered one |
| `Delegation.RenderAfterParse` | wallet/delegation.go:88-167 | Accepted text is byte for byte the rendering of what was parsed |
| `Delegation.ParseInjective` | wallet/delegation.go:88-167 | Two accepted texts with the same fields are the same text |
| `Delegation.WholeSeconds` | wallet/delegation.go:73-86 | Rendering truncates, so a time is read back if and only if it is on a whole second of a four-digit year |
| `Delegation.ParseAfterRender` | wallet/delegation.go:58-167 | Parsing a rendering gives the fields back if and only if keys and nonce have their sizes, caps are known and both times are on whole seconds of years 0000 to 9999 |
| `Delegation.Wording` | wallet/delegation.go:58-71 | The text that is signed, line by line, with its labels |
| `Authority.Fold` | wallet/delegation.go:213-283 | The loops compute the fold that `Authority.AcceptedChains` characterises, errors in the order of the code |
| `Authority.VerifiedIsSigned` | wallet/delegation.go:188-203 | Verification yields given fields if and only if the text parses to them, the delegator has 32 bytes, the signature 64, and the signature over the text verifies under the delegator |
| `Authority.AcceptedChains` | wallet/delegation.go:188-283 | A chain is accepted with given caps if and only if it has 1 to 8 hops, each parsing, signed by the 32-byte key it names with a 64-byte signature that verifies, scoped to the session and inside its validity window, and the caps are derivable for the leaf in the authority relation |
| `Authority.FoldIsAuthority` | wallet/delegation.go:239-282 | The link, attenuation and forge loops accept exactly what the inductive relation derives |
| `Authority.OnlyAttenuates` | wallet/delegation.go:260-267 | Along an attenuating chain, later caps are a subset of all earlier ones |
| `Authority.PrefixesAccepted` | wallet/delegation.go:205-283 | Every prefix of a chain that the whole checker accepts, signatures, session, window and length included, is accepted for the delegate it ends at, with a superset of the caps and the same root |
| `Authority.OwnerIdentity` | auth/wallet.go:230-243 | The identity that an accepted chain yields is Owner if and only if the chain is rooted at the session owner and every hop carries all caps |
| `Authority.PermissionsOfChain` | auth/wallet.go:230-243 | The identity that an accepted chain yields may write, or resize, if and only if every hop carries bit 1, or bit 2 |
| `Authority.GrantedWasHeld` | auth/wallet.go:236-243 | What an accepted chain confers was held by its root on chain and at every hop |
| `GrantTable.StepRefines` | programs/mosey-session/src/lib.rs:29-97 | Each instruction on stamped accounts matches the instruction on plain tables where a bump clears the table |
| `GrantTable.RunRefinesEager` | programs/mosey-session/src/lib.rs:29-97 | Over every run on any number of sessions the stamped accounts represent the eager tables, so no swept grant revives |
| `GrantTable.OthersUntouched` | programs/mosey-session/src/lib.rs:144-195 | An instruction naming one session changes no other |
| `GrantTable.ChangesNeedOwner` | programs/mosey-session/src/lib.rs:126-195 | A registered session changes only by an instruction that names it and is signed by its owner; one is created only with the signatures of its key and its first owner |
| `GrantTable.OnlyKnownCaps` | programs/mosey-session/src/lib.rs:58-59 | Over every run no table grants an unknown capability |
| `GrantTable.GrantAfter` | programs/mosey-session/src/lib.rs:58-97 | What a grantee is granted after any instruction: what the owner minted with known bits, nothing after the owner's revocation or bump below epoch 65535, and otherwise what it was before |
| `GrantTable.OwnerAfter` | programs/mosey-session/src/lib.rs:44-54 | The owner after any instruction: whom the owner named in a transfer, otherwise unchanged |
| `GrantTable.BornByRegistration` | programs/mosey-session/src/lib.rs:29-41 | A session comes into being if and only if it is registered with the signatures of its key and its owner; it then has that owner, epoch 0 and no grant |
| `Program.MoseySession.RegisterSession` | programs/mosey-session/src/lib.rs:29-41 | The handler makes the model's registration step; without the signatures of both session key and owner, or on an existing account, it fails and changes nothing |
| `Program.MoseySession.TransferOwnership` | programs/mosey-session/src/lib.rs:44-54 | The handler makes the transfer step, or fails without the owner's signature |
| `Program.MoseySession.Grant` | programs/mosey-session/src/lib.rs:58-76 | The handler makes the mint step: account made if needed, unknown bits rejected, stamped with the current epoch |
| `Program.MoseySession.Revoke` | programs/mosey-session/src/lib.rs:79-85 | The handler closes exactly the named grant of that session |
| `Program.MoseySession.BumpEpoch` | programs/mosey-session/src/lib.rs:89-97 | The handler advances the epoch, or fails on overflow and changes nothing |
| `Source.SnapshotIsTable` | walletsolana/snapshot.go:18-30 | Over accounts that refine a table, a grantee is in the snapshot if and only if the table grants to it with expiry 0 or an expiry, in seconds, later than now; with the table's caps and owner; there is no snapshot exactly when the session is not registered |
| `Source.LapsesAtExpiry` | walletsolana/snapshot.go:23-26 | A grant lapses at exactly the instant its expiry names, in nanoseconds; 0 never lapses |
| `Source.BuildSnapshot` | walletsolana/snapshot.go:18-30 | For any list of grants, a grantee gets the caps of its last grant that has the session's epoch and expiry 0 or later than now, and nothing if it has none |
| `Source.LiveCapsOf` | walletsolana/snapshot.go:18-30 | Whatever the order of well-formed accounts, a grantee is in the result exactly when its account is live, with that account's caps |
| `Source.SeenIsSnapshot` | walletsolana/source.go:193-232 | Of accounts that the program wrote, every walk over the map builds the same snapshot, or none exactly when the session is not registered |
| `Source.ChainSource.Refresh` | walletsolana/source.go:168-237 | For any accounts fetched: installs a snapshot built from a session account with the key and all grants that reference it, watches exactly those, and notes the time; or fails for want of an answer or of a session account and leaves the cache alone |
| `Source.ChainSource.Snapshot` | walletsolana/source.go:103-111 | The cached snapshot, fresh exactly within the staleness budget |
| `Source.ChainSource.VerifyNow` | walletsolana/source.go:115-124 | For any accounts fetched: refreshes, then looks the key up in the new snapshot; fails exactly when a refresh sees nothing |
| `RateLimiter.Limiter.TryTake` | auth/wallet.go:137-149 | One call refills by elapsed time up to the maximum and spends a token if there is one |
| `RateLimiter.RateBound` | auth/wallet.go:137-149 | Over any calls with any clock readings, calls allowed plus tokens left are at most tokens at the start plus rate times the advance of the clock seen |
| `RateLimiter.AtMostBurst` | auth/wallet.go:123-149 | From any moment, calls allowed are at most one full bucket plus the refill |
| `RateLimiter.TooSmall` | auth/wallet.go:133-149 | A bucket that cannot hold one token never allows a call |
| `RateLimiter.AllowedExactly` | auth/wallet.go:137-149 | A call is allowed if and only if the bucket can hold a token and tokens plus what was earned since reach one; it then takes one, and a refused call takes none |
| `RateLimiter.TokensAreHonoured` | auth/wallet.go:137-149 | A bucket with n tokens allows the next n calls whatever the clock readings |
| `RateLimiter.WaitingEarns` | auth/wallet.go:137-149 | After 1/rate seconds a bucket that can hold a token allows a call, however empty it was |
| `Admission.WalletAuth.ResolveCaps` | auth/wallet.go:313-343 | For any accounts the chain may answer with, the method computes, over what a lookup sees of them, the admission that `Admission.AdmittedExactly` and the effects on cache and limiter that `Admission.LookUpExactly` characterise |
| `Admission.AdmittedExactly` | auth/wallet.go:313-358 | An admission succeeds with given caps and root if and only if the snapshot is within its budget, the chain is 1 to 8 valid hops from that root, and they derive the caps for the leaf in the snapshot, or, with a token or no limiter and a root the snapshot knows neither as owner nor as grantee, in the snapshot plus the grant that the lookup saw |
| `Admission.LookUpExactly` | auth/wallet.go:327-343 | The limiter is asked if and only if the snapshot is fresh and the chain is 1 to 8 valid, linked hops to the leaf from a root it does not know; the chain is queried if and only if the limiter agrees; then what was seen replaces the cache, and nothing else changes |
| `Admission.SnapshotRequired` | auth/wallet.go:318-325 | A chain with a readable root fails for want of a snapshot, or for a stale one, exactly then |
| `Admission.EntitledAreAdmitted` | auth/wallet.go:313-329 | Over every run: whoever the eager table entitles at a successful refresh is admitted with exactly that, by every valid chain presented within the budget, whatever lands on chain in between |
| `Admission.NewGrantIsAdmitted` | auth/wallet.go:330-343 | Over every run: with the chain reachable and a token, whoever the current table entitles through a grantee that the fresh snapshot does not know is admitted at once |
| `Admission.AdmissionsAreBacked` | auth/wallet.go:310-358 | Over every run of transactions, ticks, refreshes and admissions, whenever an admission succeeds its hops are valid now, and the eager tables of a moment at most the staleness budget ago derive from them, in the authority relation, the caps its leaf is admitted with, from a root that owned the session or held a live grant covering them |
| `Admission.CacheWasTaken` | walletsolana/source.go:166-237 | Every cached snapshot is the chain's at some earlier moment of the run |
| `Admission.LookUpsPaid` | auth/wallet.go:334-335 | Over any run, on-demand lookups are at most burst plus rate times elapsed time |
| `Wire.MessageWritten` | walletsolana/tx.go:167-187 | Reading back a serialized message gives that message if its lengths fit a compact-u16, and nothing otherwise |
| `Wire.MessageLayout` | walletsolana/tx.go:165-175 | The offset of every header byte, of every key, of the blockhash and of the instructions in the serialized message |
| `Wire.InstructionLayout` | walletsolana/tx.go:176-187 | The offset of program index, account indices and data in a serialized instruction |
| `Message.RankedExact` | walletsolana/tx.go:140-163 | The ranked keys are the mentioned keys, each once |
| `Message.IntendedExactly` | walletsolana/tx.go:110-138 | The keys of the message asked for are the fee payer, all accounts and all programs; a key signs, or is writable, if and only if it is the fee payer or some account mention asks for it |
| `Message.PrivilegesPreserved` | walletsolana/tx.go:142-165 | Within the limits, header and position give every key the union of the flags it was mentioned with |
| `Message.CompilationPreservesMeaning` | walletsolana/tx.go:110-189 | Decoding the bytes gives the intended fee payer, blockhash, calls and merged privileges if and only if there are at most 256 keys, at most 255 signers, every length fits a compact-u16 and the fee payer is not called as a program |
| `Message.BigCallIsLost` | walletsolana/tx.go:158-187 | One call with 257 distinct keys compiles, and its bytes mean something else |
| `Compiler.AppendShortVec` | walletsolana/tx.go:91-100 | The loop appends the compact-u16 length |
| `Compiler.CompileMessage` | walletsolana/tx.go:114-189 | The maps, slices and loops produce the bytes of the model's compiled message |
| `Varints.EncodeVarint` | clients/typescript/src/proto.ts:18-27 | The loop computes the base-128 digits, low first |
| `Varints.Decode` | clients/typescript/src/proto.ts:32-48 | The loop computes the value and length, or reports truncation or overflow as the code does |
| `Varints.VarintRoundTrip` | clients/typescript/src/proto.ts:18-48 | Decoding an encoding followed by anything gives the value back if and only if it is below 128^10, which holds for every uint64 |
| `Varints.VarintPrefix` | clients/typescript/src/proto.ts:36-47 | A proper prefix of an encoding is reported as truncated |
| `Varints.VarintSpelled` | clients/typescript/src/proto.ts:18-27 | The encoding's low seven bits, least significant first, write n in base 128; every byte but the last has its top bit set, and the last of several is not zero |
| `Varints.DecodedExactly` | clients/typescript/src/proto.ts:32-48 | The decoder yields a value and a width if and only if a terminated encoding of that value and width, at most ten bytes, begins the buffer |
| `Varints.FailsExactly` | clients/typescript/src/proto.ts:36-47 | It reports overflow if and only if ten bytes all continue, truncation if and only if fewer than ten do and the buffer ends |
| `Framing.FrameReads` | clients/typescript/src/proto.ts:95-117 | A frame followed by anything is read as its message and length |
| `Framing.PartialFrameWaits` | clients/typescript/src/proto.ts:103-117 | No proper prefix of a frame is read as a message |
| `Framing.Stream.ReadFramed` | clients/typescript/src/transport.ts:103-114 | Resolves from the buffer, rejects when closed, or joins the queue of readers |
| `Framing.Stream.OnMessage` | clients/typescript/src/transport.ts:147-172 | The chunk is appended and the loop resolves waiting readers in order while frames are complete |
| `Framing.Stream.Fail` | clients/typescript/src/transport.ts:192-199 | Every waiting reader is rejected and the queue emptied |
| `Framing.Stream.Close` | clients/typescript/src/transport.ts:134-142 | Marks the stream closed and nothing else |
| `Framing.SuccessesInOrder` | clients/typescript/src/transport.ts:98-172 | For any messages, chunking, calls and closing, the successful reads are a prefix of the messages in order, and readers wait only while no complete frame is buffered |
| `Framing.EachCallGetsItsMessage` | clients/typescript/src/transport.ts:98-172 | While the stream is open the i-th call resolves to the i-th message exactly when that message has arrived in full, and is pending otherwise |
| `Framing.CallAnswered` | clients/typescript/src/transport.ts:98-114 | On every run, a new call is given the next message if its frame has arrived, open or closed; otherwise a stream closed by either side rejects it and an open one makes it wait |
| `Framing.FailureAnswersAll` | clients/typescript/src/transport.ts:192-199 | In every state after a failure no call is pending, the calls that waited are rejected and the others keep their answer |
| `Framing.AnswersStand` | clients/typescript/src/transport.ts:103-172 | Over every run, a resolved or rejected call stays so |

## Left out

- Exactly-once or in-order resume: a client registers before it replays, so a chunk can arrive both live and in the replay; coverage is what holds and what is proved.
- Freedom of the filtered output from queries: deleting an inner query can leave an outer one (ESC [ ESC [ c c becomes ESC [ c); deletion from the input is what is proved.
- The order in which sizes reach the kernel and their narrowing to 16 bits: sizes are applied after the lock is released; the requested size is modelled in lock order.
- Sends to clients that have already left the registry, and the copying goroutines of `bridgeClient`: only their effect on a registered client's channel is modelled.
- The session lock as an object: each method of `Vterm` is one step of the state machine, and interleaving is between methods.
- Overflow of client ids and sequence numbers (64 bits): they are unbounded integers. The epoch's 16 bits are modelled.
- Overlapping refreshes, RPC latency and account decoding from base64: a refresh is one step on decoded accounts, and the clock is read once per call.
- Program-derived addresses: terms built from their seeds, so two seeds never share an address; the bump search is not modelled.
- Ed25519 is a predicate handed in as a parameter; the handshake's nonces and transcripts are not modelled.
- Go's time package: formatting and parsing are parameters, of which `Delegation.ParseAfterRender` asks only what section 5.6 of RFC 3339 says of whole seconds: one line, read back exactly when the year has four digits.
- Floating point in the token bucket: reals.
- Rounding of very large JavaScript numbers in frame lengths: integers; `|` on disjoint bits is addition.
- Raw mode of the TypeScript stream (`onData`) and `whenClosed`.
- Signing, submitting and confirming transactions, events emitted by the program, and rent.
- `ParseCapsLenient`, `listClients`, signals, and the resume header: straight-line code that would add only easy members.
- Transports, PTY and process handling, CLI, web gateway, pre-shared-key and certificate handshakes.
