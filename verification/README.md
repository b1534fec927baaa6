# A Dafny model of Svalin's trust ledger, group policy and message plumbing

Svalin manages devices through a server. Server, agents and clients share a **trust store**: a
replicated, hash-linked ledger of certificate transactions. Everything else rests on it: chains are
completed and verified from it, the server decides from it which MLS groups and commits it accepts,
and replicas follow it through a transaction log and a broadcast. This project models that core and
proves what it guarantees over whole runs. It also covers the mailbox, the chunk framing and the
nonce counter.

`dafny verify dfyconfig.toml` checks the whole project.

| file | content |
|---|---|
| Outcomes, Encoding | result types; prefix-free codes, sorted keys |
| Certificates | certificate types, signatures, validity, definite-length encoding |
| TrustState | the state: check, apply, revert, digest, export, import |
| SecureChain | blocks and the chain: package, check, apply, digest, export, import |
| History | whole accepted runs of the ledger; the update loop and loading from a snapshot |
| SigningRules | who may sign whom, type by type; which error each failing test gives |
| CertificateChain, CertificateTree | chain building and verification; the tree; the two verifiers |
| Handlers, CatchUp, Replication | concurrent message handlers; a replica catching up; what the replica ends with |
| TransactionLog | the transaction log object and the handler, for one caller at a time |
| GroupIds, GroupPolicy, GroupHistory | raw and parsed group ids; which groups and commits the server accepts; runs beside a growing ledger |
| GroupRules | the same policy written out by certificate types and validity |
| Mailbox, Framing, Nonces | message store, chunk lengths, nonce sequence |

## How it is modelled

* A digest is its own preimage (`Sha512(input)`), and the all-zero digest is a separate value. A
  signature names the key and the digest it was made over. A key is named by its hash. These are the
  ideal readings of SHA-512, Ed25519 and the key hash.
* A certificate is stored as the bytes it came in. The parser reads one definite-length element (section
  10.1 of ITU-T X.690) and ignores what follows; the program keeps, hashes, compares and sends all of
  it. The model has both parts: `Element`, a tag, the length of the contents and the contents, and
  `trailing`. That an element's end can be told from its beginning, and that its contents determine the
  parsed fields, is the assumption this stand-in makes about DER; the rest is proved.
* Clock readings are parameters. Each accepted block has a reading of its own; readings of different
  blocks are not related unless a lemma says so.
* Objects that the program updates in place are classes (`State`, `Chain`, `CertificateChainBuilder`,
  `TransactionStore`, `MlsServer`, `MessageStore`, `ChunkTransport`, `NonceCounter`), proved against
  functions on their values. Concurrent code is a state machine over its separate steps.
* `Accepted(c, blocks, clocks)` says that each block passed the trust store's check against the chain
  that its predecessors left behind. Theorems about reachable ledgers are about accepted runs from
  `Start(root)`.
* The initial root is of root type. That it is self-issued is assumed only where a lemma says so.

## What came out

These are statements about the code as it is, each with its exact condition.

* **A handler that stops between its insert and its apply ends the ledger's progress.** That happens
  whenever nobody is subscribed: the row is written, the broadcast fails, the block is never applied,
  and from then on every block fails its check or its store, for as long as the server runs. A handler
  left alone completes exactly when somebody is subscribed at its broadcast
  (`UndisturbedHandlerCompletes`, `StopWedges`, `WedgedForever`, `HandleBlock`).
* **The hashed bytes of a state are canonical exactly among states without trailing bytes.** Nothing
  enforces that there are none, and every state that stores something shares its bytes with another one
  (`StateBytesCanonical`, `BytesAreShared`, `AbsorbedCertificate`, `PaddingIsAccepted`). Replicas are not
  misled by it, because their digest covers the hash-linked history too (`ChainDigestBinding`); the
  digest test on import is worth exactly as much as the guard (`ImportedStateIsCommitted`).
* **Catch-up never leaves a gap, but it can repeat a row.** Insert and broadcast are two steps. A
  replica that subscribes and reads between them gets the row twice. It accepts the stream exactly when
  that does not happen; otherwise it refuses the repeat, which ends its update session
  (`CatchUpHasNoGap`, `UnsentRowIsRepeated`, `ReplicaFollowsServer`).
* **Snapshots import exactly when every stored issuer is still stored.** A removal ends that exactly when
  the removed certificate issued another stored one (`StepOnIssuerClosed`), so a history can be imported
  at all its points exactly when it has no such removal (`SnapshotsImportThroughout`), as runs of
  additions never do (`AddOnlyIssuerClosed`). `UnreadableSnapshot` is an accepted history with one: a
  user, an agent under it, the removal of the expired user. A removal also breaks the chains of exactly
  the certificates below it (`RemovalBreaksBelow`).
* **A server that starts again after anything was logged never moves again.** It imports the snapshot that
  was written when it was set up, counts from the highest logged key, and replays nothing: a restart is a
  proper start exactly when the table is empty (`RestartExact`, `RestartedServerIsStuck`).
* **`package` does not compare the clock with the last block.** What it returns is accepted exactly when
  the clock is not behind that block (`PackagedBlockAccepted`, with a refused block in
  `PackagedBehindIsRefused`).
* **Commits are merged by the parsed group id.** A commit staged on a group under another spelling of its
  id goes to the group under the server's own spelling, and the membership invariant holds up to the
  first such commit (`MisdirectedCommit`, `GroupMembership`, `MisdirectionEndsMembership`, and a run with
  one in `MisdirectionHappens`).
* **The initial root is stored without a validity check**, so it can be removed for not being valid yet,
  exactly while the ledger's time is before its window (`RootLeavesBeforeItsTime`). The chain walk never
  looks at the root's window, the lookup does (`RootIsNeverRejectedByTheWalk`).
* **Creating a group again while it is cached is accepted and has no effect until a restart**
  (`RecreatedGroupIsShadowed`).
* **A chunk of exactly 2^31 bytes passes the length guard and is announced as empty** (`LengthRoundTrip`).

## Model

| member | source | states |
|---|---|---|
| Encoding.UniqueDecoding | svalin_pki/src/trust_store.rs:250-261 | concatenating codewords loses nothing where the code is prefix-free and non-empty: equal concatenations come from equal lists, for every such code and domain |
| Certificates.DerPrefixFree | svalin_pki/src/certificate.rs:246-331 | among certificates without trailing bytes, no stored encoding is a prefix of another one |
| Certificates.DerInjective | svalin_pki/src/certificate.rs:446-450 | comparing stored bytes, which is how the program compares certificates, is comparing certificates, trailing bytes included |
| Certificates.TrailingBytesBreakPrefixFreedom | svalin_pki/src/certificate.rs:246-331 | with the bytes of another certificate behind it, a certificate is stored as the concatenation of the two, which its own bytes are a proper prefix of |
| Certificates.VerifyMeaning | svalin_pki/src/certificate.rs:345-369 | the three ordered checks pass exactly when the parent's type may sign the child's, the parent's key did sign, and the time is inside the window |
| SigningRules.WhoSignsWhom | svalin_pki/src/certificate.rs:592-615 | the whole table: a root signs servers, users, sessions and agents, a user signs users, sessions and agents, nobody else signs anything |
| SigningRules.SignatureErrors | svalin_pki/src/certificate.rs:345-369 | which error each failing test gives: type first, then signature, then a window that has not begun or has ended |
| TrustState.TransactionAccepted | svalin_pki/src/trust_store.rs:183-214 | exactly which transactions pass: a stored signer, and either a fresh valid certificate it issued, signed and may sign, or the removal of the very certificate that is stored and is not valid now |
| SigningRules.AdditionAccepted | svalin_pki/src/trust_store.rs:190-199 | exactly which certificates a signer can add, by the types of both, with a fresh key, its own issue and signature, and inside the window |
| SigningRules.TransactionErrors | svalin_pki/src/trust_store.rs:183-214 | for each error the condition under which exactly it is given |
| TrustState.RevertUndoesApply | svalin_pki/src/trust_store.rs:183-248 | after a passing check `apply` cannot panic, `revert` restores the state exactly, and keys stay consistent |
| TrustState.TransactionEffect | svalin_pki/src/trust_store.rs:183-234 | what one checked transaction can do to any one key: keep it unchanged, add it inside its window signed by its issuer, or remove it outside its window |
| TrustState.StepOnIssuerClosed | svalin_pki/src/trust_store.rs:183-234 | while every issuer is stored, an addition keeps it so, and a removal does exactly when the removed certificate issued no other stored one |
| TrustState.StateBytesCanonical | svalin_pki/src/trust_store.rs:250-261 | the hashed bytes of a state without trailing bytes belong to no other such state; any state with the same bytes is the same exactly when it has no trailing bytes |
| TrustState.BytesAreShared | svalin_pki/src/trust_store.rs:250-261 | the guard is needed: every state that stores a certificate has a different one with the same hashed bytes |
| TrustState.AbsorbedCertificate | svalin_pki/src/trust_store.rs:250-261 | two certificates under neighbouring keys hash like the first one alone with the second behind it |
| TrustState.PaddingIsAccepted | svalin_pki/src/trust_store.rs:190-199 | bytes behind a certificate change nothing in how its addition is judged, error included |
| TrustState.State.HashInput | svalin_pki/src/trust_store.rs:250-261 | whatever order the map hands its keys out in, the bytes fed to the hasher are the canonical ones |
| TrustState.ImportInvertsExport | svalin_pki/src/trust_store.rs:263-301 | importing any listing of the certificates succeeds exactly when every issuer is stored, and then gives back the same state, whatever the order |
| TrustState.Import | svalin_pki/src/trust_store.rs:274-301 | the loop over the `seen` map reports exactly the issuers that are not listed, and otherwise builds a state whose keys are consistent |
| SigningRules.ImportErrors | svalin_pki/src/trust_store.rs:274-293 | refused for a root of another type, and else exactly for the listed issuers that are not listed themselves |
| TrustState.State.Export | svalin_pki/src/trust_store.rs:263-272 | the exported list holds every stored certificate and nothing else |
| TrustState.State.Check | svalin_pki/src/trust_store.rs:183-214 | the map-reading form decides the same outcome, error included, as the function the lemmas are about |
| TrustState.State.Apply | svalin_pki/src/trust_store.rs:216-234 | in-place update refines the function that `RevertUndoesApply` and `TransactionEffect` speak of; needs what the two `expect` calls need |
| TrustState.State.Revert | svalin_pki/src/trust_store.rs:236-248 | in-place update refines the function that undoes `Apply` |
| SecureChain.BlockDigestBinding | svalin_pki/src/secure_chain.rs:353-362 | block digests are equal exactly when all fields but the signature are |
| SecureChain.BlockLayout | svalin_pki/src/secure_chain.rs:353-362 | the hashed layout of a block: sequence, time, previous digest, resulting digest, signer, then the transaction |
| SecureChain.TransactionLayout | svalin_pki/src/trust_store.rs:144-157 | the hashed layout of a transaction: its name, letter by letter, then the certificate as stored |
| SecureChain.CheckedBlockApplies | svalin_pki/src/secure_chain.rs:125-200 | a block that passed can be applied to that chain without either panic; the state then hashes to what the block promised, the sequence grows by one, time does not run back |
| SecureChain.PackagedBlockApplies | svalin_pki/src/secure_chain.rs:66-123 | whatever `package` returns can be applied to the same chain without a panic |
| SecureChain.PackagedBlockAccepted | svalin_pki/src/secure_chain.rs:66-185 | every replica in the same state accepts a packaged block at any later time exactly when the packaging clock was not behind the last block |
| History.PackagedBehindIsRefused | svalin_pki/src/secure_chain.rs:137-140 | after a block dated 5 a replica whose clock reads 3 packages a block that is refused as too early at every reading |
| SecureChain.AcceptedIffPackaged | svalin_pki/src/secure_chain.rs:66-185 | a replica accepts a block exactly when it is the one block its signer would have packaged on that chain at its time, and that time lies between the last block and now |
| SigningRules.BlockErrors | svalin_pki/src/secure_chain.rs:125-185 | the same conditions for the first block and for later ones under which exactly each error is given |
| SecureChain.SnapshotRoundTrip | svalin_pki/src/secure_chain.rs:213-242 | a chain whose last block commits to its state survives export and import, digest test included, exactly when every issuer is stored |
| SecureChain.ImportedStateIsCommitted | svalin_pki/src/secure_chain.rs:223-242 | an imported state that passes the digest test of a block committing to a clean state is that state exactly when it is clean itself, and so whenever nothing in the file has bytes behind it |
| SecureChain.Chain.DryRun | svalin_pki/src/secure_chain.rs:81-90 | apply, hash and revert leave the chain as it was and yield the digest of the state that would result |
| SecureChain.Chain.Package | svalin_pki/src/secure_chain.rs:66-123 | leaves the chain unchanged on every path; returns a signed successor of the last block that this chain can apply |
| SecureChain.Chain.Check | svalin_pki/src/secure_chain.rs:125-185 | leaves the chain unchanged on every path; refuses with the first failing test's error; an accepted block can be applied |
| SecureChain.Chain.CheckFromStore | svalin_pki/src/trust_store.rs:40-53 | the same with the signer's certificate taken from the state, an unknown signer being refused first |
| SecureChain.Chain.Apply | svalin_pki/src/secure_chain.rs:187-200 | commits block and state together; the digest comparison that would panic is proved never to fail |
| SecureChain.Chain.Digest | svalin_pki/src/secure_chain.rs:202-211 | computes the digest for which `ChainDigestBinding` is proved |
| SecureChain.ImportFrom | svalin_pki/src/secure_chain.rs:223-242 | refines chain import with its errors, and what it builds is a valid chain |
| History.TimesOrdered | svalin_pki/src/secure_chain.rs:138-140 | block times never decrease along an accepted run and none is ahead of the clock it was checked at |
| History.RunKeeps | svalin_pki/src/secure_chain.rs:125-200 | over every accepted run: keys consistent, state committed to by the last block, sequence counts the blocks, root unchanged |
| History.LastDigestBinding | svalin_pki/src/secure_chain.rs:125-211 | equal last-block digests mean equal whole histories up to signatures, by induction along the hash links |
| History.ChainDigestBinding | svalin_pki/src/secure_chain.rs:202-211 | two replicas' chain digests agree exactly when they started from the same root and accepted the same blocks up to signatures, and then they hold the same certificates; trailing bytes anywhere do not matter |
| History.Provenance | svalin_pki/src/trust_store.rs:191-199 | every stored certificate but the initial root was added by some block of the history, inside its window, signed by its issuer |
| SigningRules.EverySignerIsEntitled | svalin_pki/src/trust_store.rs:190-199 | over every accepted run, every stored certificate but the initial root was added under a signer stored at that block: the initial root for a server, the initial root or a user for a user, session or agent |
| SigningRules.StoredKinds | svalin_pki/src/certificate.rs:592-615 | so apart from the initial root only users, sessions, agents and servers are ever stored, and every server is signed with the root key |
| SigningRules.EntitledAdditionIsAccepted | svalin_pki/src/secure_chain.rs:66-185 | after any accepted run, an entitled signer's fresh valid certificate is packaged and its block accepted at any later reading |
| History.NeverTooEarly | svalin_pki/src/certificate.rs:417-427 | no stored certificate but the initial root is ever younger than the ledger's time |
| History.RemovalSoundness | svalin_pki/src/trust_store.rs:200-211 | certificates are never replaced; one leaves only through a removal block naming it, dated outside its window, and strictly after its end unless it is the initial root |
| History.RootLeavesBeforeItsTime | svalin_pki/src/trust_store.rs:131-135 | after any accepted history, a block that removes a stored certificate before its window can be accepted exactly if that certificate is the initial root and the ledger has no block dated in or after its window yet |
| History.ProducerValidatorAgreement | svalin_pki/src/secure_chain.rs:66-185 | between replicas with equal digests, whatever one packages with a clock not behind its own readings the other accepts at any later reading, and both end in the same chain |
| History.OtherClocks | svalin_pki/src/secure_chain.rs:150-152 | an accepted run is accepted again at other readings exactly when none of them is behind its block |
| History.SnapshotIndependence | svalin/src/util/trust_store.rs:55-64 | a snapshot after any m blocks imports exactly when every issuer is stored; replaying the rest is then accepted and ends in exactly the chain of the full replay |
| History.SnapshotsImportThroughout | svalin_pki/src/trust_store.rs:274-293 | with a self-issued root, an accepted history can be imported at each of its points exactly when no block of it removes a certificate that issued another stored one |
| History.UnreadableSnapshot | svalin_pki/src/trust_store.rs:200-211 | an accepted history of three blocks whose snapshot no listing can bring back |
| History.ApplyBlocks | svalin/src/shared/commands/update_trust_store.rs:61-143 | the update loop applies exactly the longest prefix that is accepted and can be written, and ends at the first block that is refused or not written |
| History.FollowBlock | svalin/src/shared/commands/update_trust_store.rs:125-143 | a block is applied exactly when it passes and is written; otherwise the chain is as before |
| History.LoadTrustStore | svalin/src/util/trust_store.rs:43-64 | loading succeeds exactly when the snapshot imports and every logged block is accepted, and ends in the replayed chain |
| CertificateChain.CertificateChainBuilder.PushParent | svalin_pki/src/certificate_chain.rs:63-94 | grows by exactly the parent when it is the requested issuer and its key is new; otherwise unchanged with the reason; the known keys stay those of the chain on every path |
| SigningRules.PushErrors | svalin_pki/src/certificate_chain.rs:63-94 | when a push is refused as finished, as another than the requested parent, or as a loop, and when it succeeds |
| CertificateChain.CompleteCertificateChain | svalin_pki/src/trust_store.rs:88-103 | the loop terminates on every store, issuer cycles included, after at most one push per stored key, and the final `expect` never fails |
| CertificateChain.CompletionExact | svalin_pki/src/trust_store.rs:88-103 | completion returns a chain exactly when that chain is the leaf's root-first issuer path with distinct keys; so there is at most one |
| CertificateChain.CompletionStable | svalin_pki/src/trust_store.rs:88-103 | adding certificates under new keys never changes a completed chain |
| CertificateChain.RemovalBreaksExactly | svalin_pki/src/trust_store.rs:88-103 | without a key, exactly the chains on which it does not stand above the leaf still complete, unchanged, and no new ones do |
| CertificateChain.ReplacementGrafts | svalin_pki/src/trust_store.rs:88-103 | with another certificate under a key above the leaf, the chain completes exactly when the newcomer's own chain does and holds nobody from below, and is then that chain with the old lower part |
| CertificateChain.Verify | svalin_pki/src/certificate_chain.rs:141-180 | the loop that grows the verified prefix reports the first bad link, error included |
| CertificateChain.VerifyExact | svalin_pki/src/certificate_chain.rs:141-180 | a chain verifies exactly when it starts at the given root and every later element is signed by the one before, may be, and is valid now; the result is the chain itself |
| SigningRules.ChainErrors | svalin_pki/src/certificate_chain.rs:141-180 | an empty chain, another root, or the first link that fails with the error it fails with |
| CertificateTree.AddOnlyGrounded | svalin_pki/src/trust_store.rs:191-199 | every state reached by additions has a rank that falls along every issuer link, with each link signed: a tree below the root |
| CertificateTree.TreeTheorem | svalin_pki/src/trust_store.rs:88-103 | after additions only, the initial root is the sole root-type certificate, every stored certificate's chain completes to it, and that chain verifies at a time exactly when everything below the root is valid then |
| CertificateTree.AddOnlyIssuerClosed | svalin_pki/src/trust_store.rs:274-293 | with a self-issued root no run of additions ever loses an issuer |
| CertificateTree.RemovalBreaksBelow | svalin_pki/src/trust_store.rs:200-234 | in any accepted run a removal breaks the chains of exactly the certificates below the removed one; the others complete to what they had |
| CertificateTree.WalkExact | svalin/src/verifier/local_verifier.rs:23-45 | in a tree the walk accepts a stored key without a session exactly when its whole path below the root is valid, and answers with the stored certificate |
| CertificateTree.WalkOfSession | svalin/src/server/chain_loader.rs:27-50 | for a key with a session entry the walk goes by the entry, stored or not: it accepts exactly one that stands under its key, was issued by a stored certificate that may and did sign it, is valid, and does not close a loop, with a valid path above it |
| CertificateTree.SessionsAreWalked | svalin/src/verifier/local_verifier.rs:23-45 | the same after every accepted run of additions, answered with the session entry itself |
| CertificateTree.LookupAgreesWithWalk | svalin_pki/src/verifier/trust_store.rs:17-29 | what the walk accepts the lookup accepts with the same certificate; what the lookup accepts the walk accepts exactly when all intermediates are valid |
| CertificateTree.RootIsNeverRejectedByTheWalk | svalin/src/server/chain_loader.rs:27-50 | after any accepted history that still stores the root, the walk accepts it at any time, the lookup only inside its window |
| Handlers.InsertMeansCaughtUp | svalin_store/src/server_store/trust_store_transaction_store.rs:52-76 | whatever was tested before, a row can be inserted only when memory has applied the whole table, and its block then passes against current memory |
| Handlers.ApplyIsSafe | svalin/src/message_streaming/with_client.rs:47-55 | the block a handler applies after the unlocked gap was checked against exactly the chain in memory, so apply cannot panic |
| Handlers.HandlersAreSafe | svalin/src/message_streaming/with_client.rs:47-55 | over all interleavings of any number of handlers and subscribers, from any log that memory has applied, any handler stopping anywhere: the log is at most one block ahead of memory, it is an accepted history whose replay gives memory, and no pending apply can panic |
| Handlers.UndisturbedHandlerCompletes | svalin/src/message_streaming/with_client.rs:47-55 | from every reachable state in which memory has applied the log, a handler left alone takes a passing block from check to apply exactly when somebody is subscribed at its broadcast; otherwise the row is logged, never applied, and the log wedged |
| Handlers.StopWedges | svalin_store/src/server_store/trust_store_transaction_store.rs:71-75 | a handler leaves a row nobody will apply exactly when it stops between insert and apply |
| Handlers.FailedBroadcastWedges | svalin_store/src/server_store/trust_store_transaction_store.rs:71-75 | a broadcast that finds no subscriber always leaves such a row |
| Handlers.WedgedForever | svalin_store/src/server_store/trust_store_transaction_store.rs:52-63 | once there is such a row no run of any handlers and subscribers changes log or memory again |
| Handlers.RestartExact | svalin/src/server.rs:99-157 | a restart, from any reachable state, is a proper start again exactly when nothing was ever logged |
| Handlers.RestartedServerIsStuck | svalin/src/server.rs:99-157 | otherwise no run after it, of any handlers and subscribers, changes log or memory, and further restarts change nothing either |
| TransactionLog.SelectedAreConsecutive | svalin_store/src/server_store/trust_store_transaction_store.rs:89-94 | in a log without gaps the ordered query returns the consecutive rows after the given number, none if there are none |
| TransactionLog.TransactionStore.Open | svalin_store/src/server_store/trust_store_transaction_store.rs:35-50 | an empty table counts as 1, any other as its highest key |
| TransactionLog.TransactionStore.AddAndBroadcast | svalin_store/src/server_store/trust_store_transaction_store.rs:52-76 | refuses without effect; otherwise row, counter and every subscriber's queue grow together; a broadcast without subscribers is an error with the row written; a valid log has no gap and never a key conflict |
| TransactionLog.TransactionStore.LoadAllAfter | svalin_store/src/server_store/trust_store_transaction_store.rs:78-113 | for one caller: returns exactly the rows after the given number, in order, and the new queue continues at the current one |
| TransactionLog.TransactionStore.DrainInto | svalin_store/src/server_store/trust_store_transaction_store.rs:104-112 | with any additions between subscribing, reading and draining: what is returned followed by what stays queued is the log after the given number, without gap or repeat |
| TransactionLog.TransactionStore.Receive | svalin/src/shared/commands/update_trust_store.rs:192-204 | a subscriber is served the row right after the last one it was served, and nothing only when it has all |
| TransactionLog.HandleBlock | svalin/src/message_streaming/with_client.rs:47-55 | each outcome with the state it leaves: applied only if logged; refused without effect; or logged but not applied when nobody is subscribed, after which every block is refused |
| CatchUp.DrainReceiver | svalin_store/src/server_store/trust_store_transaction_store.rs:104-110 | the receive loop keeps at most one newer block and leaves the rest queued, as the stepwise form does when nothing interleaves |
| CatchUp.HandlersDriveLog | svalin_store/src/server_store/trust_store_transaction_store.rs:52-76 | seen by a reader, interleaved handlers insert one row at a time and broadcast it before the next is inserted |
| CatchUp.CatchUpHasNoGap | svalin_store/src/server_store/trust_store_transaction_store.rs:78-113 | however handlers, subscribers and reader interleave, rows followed by queue are the log from after + 1 to at least the last broadcast, contents and order, except that the first queued block may repeat the last row |
| CatchUp.RepeatDecidedAtTheEnd | svalin_store/src/server_store/trust_store_transaction_store.rs:104-110 | the step that ends the drain decides for good: in every later state a repeat is due exactly when that step found the queue empty, the last row was not broadcast by then, and something is queued |
| CatchUp.SettledCatchUpIsExact | svalin_store/src/server_store/trust_store_transaction_store.rs:78-113 | if no handler is between insert and broadcast at that step, the stream is from then on, in every later state, exactly the log after the given number up to the last broadcast |
| CatchUp.UnsentRowIsRepeated | svalin_store/src/server_store/trust_store_transaction_store.rs:64-75 | from every reachable state with an inserted, unsent row there is a run in which the reader gets that row twice |
| Replication.ReplicaFollowsServer | svalin/src/shared/commands/update_trust_store.rs:61-92 | over all interleavings, a replica that asked from its own sequence number accepts all it was sent exactly when no row was repeated, and then holds the server's chain at or beyond the last broadcast; otherwise it applies all rows before the repeat and refuses that very block at every clock reading |
| GroupIds.ParseUndoesWriting | svalin_pki/src/mls/group_id.rs:12-59 | parsing undoes writing, canonical ids are exactly the written ones, and ids that parse alike lead to the same one |
| GroupIds.NamesExactly | svalin_pki/src/mls/group_id.rs:33-59 | which raw ids name the global group, and which an agent's device or meta group |
| GroupIds.OtherSpellings | svalin_pki/src/mls/group_id.rs:33-59 | every id has other spellings that parse alike: with any parts behind it or its digits in another case |
| GroupPolicy.RequiredMembersOfAgent | svalin/src/server/local_key_retriever.rs:34-87 | the required members of an agent's group are the agent, the root and, with each one but the root, its issuer; the meta group's are the same without the agent |
| GroupPolicy.RequiredArePathMembers | svalin/src/server/local_key_retriever.rs:34-87 | time decides only whether there is an answer, never which members it names |
| GroupRules.RequiredMembersExact | svalin/src/server/local_key_retriever.rs:34-87 | an agent's groups have required members exactly when it is stored and an issuer path leads to it from the root on which every certificate is signed and valid now; they are that path's |
| GroupRules.NothingForABrokenPath | svalin/src/server/local_key_retriever.rs:34-87 | without such a path, be it for one expired certificate, no event of its groups changes any group in force |
| GroupPolicy.CheckCommit | svalin_pki/src/mls/harness.rs:75-148 | the three early-exit loops pass exactly when every credential verifies and every removal and addition is allowed on the group before the commit |
| GroupRules.CommitExact | svalin_pki/src/mls/harness.rs:75-148 | exactly which commits are allowed: valid credentials, editors that are root, users or sessions in the group and valid, no required member removed, only valid users and sessions with matching keys added |
| GroupRules.SenderExact | svalin_pki/src/mls/harness.rs:230-242 | who may edit a group: a member whose stored certificate is a root, a user or a session and is valid |
| GroupRules.MergeHappensExactly | svalin_pki/src/mls/server.rs:140-169 | exactly when a message merges, and that the addressed group is then the merge |
| GroupRules.GroupMessagesAddNobody | svalin_pki/src/mls/server.rs:140-169 | after a group message under a canonical id every member in force was there before at the same leaf; a commit with additions changes nothing |
| GroupPolicy.MergeExact | svalin_pki/src/mls/public_processor.rs:356-366 | merging keeps every leaf that is not removed, vacates the removed ones, and fills as many leaves as members are added, with exactly them |
| GroupPolicy.MergeFillsInOrder | svalin_pki/src/mls/public_processor.rs:356-366 | added members come in the order of their proposals to the leftmost leaves that are free after the removals |
| GroupPolicy.MergeKeepsGroupOk | svalin_pki/src/mls/harness.rs:75-148 | an allowed commit cannot drop a required member nor bring in anybody but users and user sessions |
| GroupRules.OthersAreUsersOrSessions | svalin_pki/src/mls/harness.rs:134-143 | an orderly group written out: all required members on some leaf, and everybody else stored as a user or a session |
| GroupPolicy.MlsServer.GetGroup | svalin_pki/src/mls/public_processor.rs:220-241 | answers with the group in force and at most caches it |
| GroupRules.CachedByMessage | svalin_pki/src/mls/public_processor.rs:220-241 | which groups a message that merges nothing leaves in the cache |
| GroupPolicy.MlsServer.AddSvalinGroup | svalin_pki/src/mls/server.rs:56-132 | stores a group exactly when it is a device group of a currently valid agent with exactly the required members; its welcome, if it has one, goes to exactly them |
| GroupRules.CreationExact | svalin_pki/src/mls/server.rs:56-132 | exactly which groups may be created: those of a stored valid certificate of type Agent with exactly its required members |
| GroupPolicy.MlsServer.ProcessMessage | svalin_pki/src/mls/server.rs:134-183 | passes the message on to everybody who was in the group, merged or not; the commit is judged and merged by the parsed id; the added are welcomed exactly when an add message merged, and under a canonical id are then members |
| GroupPolicy.MlsServer.CheckAndMerge | svalin_pki/src/mls/server.rs:148-163 | looks the parsed group up exactly when the check gets that far, and merges into it exactly when it is there and the commit is allowed on it |
| GroupPolicy.HandleKeepsGroupsOk | svalin_pki/src/mls/server.rs:206-261 | one event of any kind keeps every held group in order exactly if it does not merge a commit through another spelling of an id, or the MLS layer makes an orderly group of it anyway |
| GroupPolicy.MisdirectedCommit | svalin_pki/src/mls/server.rs:148-163 | a commit addressed by another spelling never changes the group it was staged on, but the one under the canonical id |
| GroupHistory.LedgerGrows | svalin_pki/src/trust_store.rs:183-234 | along additions every earlier state's certificates stay, unchanged |
| GroupHistory.GroupMembership | svalin_pki/src/mls/server.rs:68-131 | over any run of creations, group messages, add messages and restarts beside any run of additions to the ledger, without misdirected merges, every held group contains all its required members and otherwise only users and user sessions |
| GroupHistory.CanonicalIdsAreWellDirected | svalin_pki/src/mls/group_id.rs:12-31 | a message with a canonical id never misdirects its commit |
| GroupHistory.MisdirectionEndsMembership | svalin_pki/src/mls/server.rs:148-163 | right after the first misdirected merge the groups are not in order |
| GroupHistory.MisdirectionHappens | svalin_pki/src/mls/server.rs:148-163 | a ledger with one agent and a run of three events, in which an agent's group exists under two spellings of its id and an empty commit to the longer one is misdirected |
| GroupHistory.ShadowedOnlyByRecreation | svalin_pki/src/mls/public_processor.rs:220-241 | over any run a cached group is stored as well, and as it is stored unless it was created again while cached |
| GroupHistory.GroupsChangeOnlyByPolicy | svalin_pki/src/mls/server.rs:140-169 | over any stretch of any run without a merge into a group, a creation of it, or an earlier re-creation, the group in force stays the same: refused commits, other groups and restarts do not touch it |
| Mailbox.MailboxConservation | svalin_store/src/server_store/message_store.rs:91-109 | over every interleaving of the two statements of concurrent acknowledgements: rows refer to stored messages; a message is gone only after all its receivers acknowledged, and is gone once they have and none is in between |
| Mailbox.InboxExact | svalin_store/src/server_store/message_store.rs:61-78 | over every interleaving, what is loaded for a receiver is what was addressed to it and it has not acknowledged, each as often as it was listed |
| Mailbox.StoredAsAdded | svalin_store/src/server_store/message_store.rs:25-59 | over every interleaving a stored message is, data, time of receipt and receivers, the one that was added under its id |
| Mailbox.MessageStore.LoadAllFor | svalin_store/src/server_store/message_store.rs:61-78 | returns the join of the rows with the messages, repeats included, oldest first |
| Mailbox.BatchExact | svalin_store/src/server_store/message_store.rs:111-134 | the batch drops exactly the receiver's rows of the named messages and exactly those named messages nobody else awaits |
| Mailbox.BatchIsOrderFree | svalin_store/src/server_store/message_store.rs:111-134 | the batch equals folding single acknowledgements over the same messages in any order, repeats included |
| Mailbox.MessageStore.Add | svalin_store/src/server_store/message_store.rs:25-59 | stores the message and one row per listed receiver, repeats included |
| Mailbox.MessageStore.AcknowledgeMessages | svalin_store/src/server_store/message_store.rs:111-134 | the loop has exactly the effect that `BatchExact` describes |
| Framing.LengthRoundTrip | svalin_rpc/src/transport/chunked_transport.rs:111-147 | the tagged length reads back as written exactly when it is not 2^31, which reads back as 0 |
| Framing.LengthLayout | svalin_rpc/src/transport/chunked_transport.rs:111-124 | below 128 one byte, else four bytes, most significant first, the first one raised by 128 |
| Framing.ChunkRoundTrip | svalin_rpc/src/transport/chunked_transport.rs:14-61 | a written chunk is read back with the rest of the stream untouched exactly when it is shorter than 2^31 |
| Framing.FramingRoundTrip | svalin_rpc/src/transport/chunked_transport.rs:14-61 | any list of chunks that can be written comes back as it was, whatever bytes follow, and those are left, exactly when every chunk is shorter than 2^31 bytes |
| Framing.ChunkTransport.Write | svalin_rpc/src/transport/chunked_transport.rs:14-28 | appends the framed chunk to the stream |
| Framing.ChunkTransport.Read | svalin_rpc/src/transport/chunked_transport.rs:30-61 | takes exactly the chunk at the head of the stream, or fails on a stream cut short in length or body |
| Framing.SendAll | svalin_rpc/src/transport/chunked_transport.rs:14-28 | writing chunk after chunk leaves the concatenated frames on the stream |
| Framing.ReceiveAll | svalin_rpc/src/transport/chunked_transport.rs:30-61 | reading chunk after chunk from a live stream gives the written list back and leaves what trails |
| Nonces.NoncesDistinct | svalin_pki/src/encrypt.rs:119-126 | under any mask, counter values below 2^96 give equal nonces only if they are equal |
| Nonces.NonceIsBitwise | svalin_pki/src/encrypt.rs:119-126 | each bit of a nonce is the mask's, turned exactly where the counter has a one |
| Nonces.BigEndianWorth | svalin_pki/src/encrypt.rs:117-118 | the counter bytes, most significant first, are worth the counter |
| Nonces.NonceCounter.Advance | svalin_pki/src/encrypt.rs:109-128 | the counter stays below 2^96; the loop yields the mask exclusive-or the counter's low 12 bytes; at the limit it fails without change |
| Nonces.Draw | svalin_pki/src/encrypt.rs:109-128 | any number of calls on a fresh counter return the sequence `NonceUniqueness` is about |
| Nonces.NonceUniqueness | svalin_pki/src/encrypt.rs:97-129 | over any run from any mask exactly the first 2^96 - 1 calls succeed, and all returned nonces differ from each other and from the mask, as section 3.1 of RFC 5116 asks of nonces |

## Left out

* X.509 parsing and generation, Ed25519, SHA-512, AEAD, Argon2, AuCPace, TLS and QUIC: foreign code, replaced by the ideal relations above.
* Wrap-around of the 64-bit sequence number, and the panic of casting a validity bound before 1970.
* `clone`, `Debug`, serialisation and file formats; the periodic save loop and the temporary-file rename of the trust store file.
* A server that cannot import its snapshot does not start; Restarted is about one that can.
* The trust store's `TrustStoreTransactionStore::add` of agents and clients, which persists a followed block, and their SQL upserts: they depend on migrations that are not part of this model. FollowBlock takes whether the write succeeded as a parameter.
* Lag of a broadcast channel beyond its capacity, and the race between the last drained block and the digest sent with `UpToDate`.
* Progress of the replication protocol: only the loss of it is stated (WedgedForever), and when a handler left alone completes (UndisturbedHandlerCompletes).
* The catch-up theorems assume that the requested number is not before the first row of the table and not beyond its end when the replica subscribes.
* What the MLS library makes of merging a commit into another group than it was staged on: `elsewhere` may be any group.
* MLS internals: ratchet trees, epochs, welcome encryption, external commits and credential changes in update paths. A commit is its credentials, removals and additions; staging, checking and merging one message is one step, at one clock reading.
* CheckCommit: states only whether the commit passes, not which of the errors is reported; the server only logs it.
* The add message's key package retrieval and counting, and the member-side creation of groups.
* Framing.ChunkTransport.Read: on an error it does not say where in the stream reading stopped.
* Distribution of messages to live subscriptions, and the random message ids, which are taken to be fresh.
* Statement failures and crashes between the two statements of a single acknowledgement.
* `verify_known_certificate`, session store writes, permissions, tunnels, join codes, installers and the user interface.
