# Verification model of Pier

Pier is a self-hosted platform: a core that serves the panel, agents and a root helper on the nodes,
and a WireGuard mesh between them. This project models the parts of it that are real state machines,
scanners and text transformations, and proves what they promise over every input and every run.

Handlers that update tables, files or buffers are classes whose methods change fields; each method is
proved equal to one step of a small transition system, and the theorems are about all runs of that
system, with every answer of a tool, a database or the network left open. Loops of the source are loops
here, proved against a function whose meaning is then stated by lemmas. `dafny verify dfyconfig.toml`
checks everything.

| file | subject |
|---|---|
| `Text.dfy` | the Rust string operations the sources share |
| `WgConf.dfy`, `WgRender.dfy`, `WgRead.dfy` | the whitelist for `wg0.conf`, the key injector, the renderer on the core and what is read back from its text |
| `NetHelper.dfy` | the dead-man's switch of the network helper |
| `Addresses.dfy`, `Mesh.dfy`, `MeshLifecycle.dfy`, `MeshPairing.dfy` | subnets, the address allocator, the mesh tables, all runs of mesh requests and any number of pairings |
| `ConfigurePlan.dfy`, `Configure.dfy`, `ConfigRead.dfy` | the two-phase provisioning of all mesh nodes: what is sent and answered, the handler, and what the nodes read from their files |
| `Ansi.dfy` | the translation of ANSI colour codes to HTML (SGR is section 8.3.117 of ECMA-48) |
| `SqlText.dfy` | quoting, full-key statements and comment stripping of the database browser |
| `Alerts.dfy` | breach window, hysteresis and cooldown of alert rules |
| `Migration.dfy`, `ComposeScan.dfy`, `ComposePrint.dfy` | moving a stack between cores, and the scan that decides whether it may move |
| `ShellStream.dfy`, `ShellRuns.dfy` | the capped output buffer and the registry of shell runs on an agent |
| `Base64.dfy`, `Crypto.dfy`, `Recovery.dfy`, `ToyCipher.dfy` | the stored form of secrets, the key recovery sweep, and a cipher that keeps their laws with the inputs that fail under it |
| `NpmLogin.dfy` | the web login sessions of the npm registry |

## Where the code differs from what is written about it

- The header of the helper (`crates/pier-net-helper/src/main.rs:25`) promises a rollback to the previous
  configuration. The backup is taken at apply time, after the new text is already in place: in every run an undo
  returns the interface to what it ran before exactly when nothing else had been written since the last sync
  (`NetHelper.UndoReturnsToLiveIff`).
- The whitelist guards what is written, not the backup: a copy that stops half-way (`crates/pier-net-helper/src/main.rs:626-637`)
  leaves any text there, and an explicit rollback installs it. `NetHelper.FirstTaintIff` says exactly when,
  `NetHelper.HalfCopyIsRolledBackTo` gives the run; without an explicit rollback it cannot happen (`NetHelper.ConfStaysWhitelisted`).
- `crates/pier-net-helper/src/main.rs:73-76` promises one in-flight rollback. It holds for requests taken one at
  a time (`NetHelper.AtMostOneTimer`); cancelling and arming are separate critical sections, and
  `NetHelper.ArmKeepsOneTimerIff` and `NetHelper.OverlappingAppliesOutliveCommit` say when it breaks.
- `crates/pier-core/src/network/wireguard.rs:318-327` promises that the helper always accepts the rendered text.
  It does exactly when every line a field smuggles in is admitted in a `[Peer]` section (`WgRender.RenderAcceptedIff`),
  and the text reads back as the listed peers exactly when none adds anything at all (`WgRead.RenderReadsBackIff`):
  a name can be accepted and give its peer further addresses (`WgRead.AcceptedNameCanMislead`).
- Injecting a key reprints the text, and `str::lines` drops a carriage return at each line end: the original lines
  come back exactly when none ends in one (`WgConf.InjectionUndone`).
- `crates/pier-core/src/network/address.rs:16-31` promises brackets around IPv6 literals. An address with an IPv4 tail and no
  double colon gets none, and its endpoint cannot be read (`ConfigRead.AuthorityReadsIff`, `ConfigRead.TailedAddressIsLost`).
- A phase-2 abort of the provisioning lists the failing node twice, as keyed and as in error (`Configure.ConfigureMesh`).
- `wireguard_peers.assigned_ip` is unique and a proposal inserts with replacement, so a proposal that repeats an
  address drops the earlier server (`MeshLifecycle.ProposalSeatsAllIff`, `MeshLifecycle.RepeatedAddressDropsServer`).
- Disabling a mesh keeps the paired cores' nodes, and enabling again looks only at its own empty table
  (`crates/pier-core/src/api/network.rs:171-181`): two nodes share an address afterwards exactly when a paired node has one
  of the first host addresses (`MeshPairing.EnableSharesIff`, with a run in `MeshPairing.EnableCanShare`).
- A failed release of the migration lock is swallowed, and a request dropped half-way never reaches its release. In every
  run the stack is locked for good exactly when one of these has happened (`Migration.StuckIff`, `Migration.StuckForever`,
  with a run in `Migration.DropSticks`).
- The scan's documentation calls anonymous volumes stateful; a bare container path looks like a bind mount to it, and a list
  at the indentation of its `volumes:` key is not looked at. `ComposePrint.VerdictIsRightIff` gives the exact family,
  `ComposePrint.VolumesCanHide` a member of each kind.
- What an engine reads as one block comment in front of a statement is dropped whole exactly when its opener is not
  followed by a slash and, for Postgres, whose comments nest, none opens inside it (`SqlText.BlockCommentDroppedIff`).
- A shell run's snapshot reads its fields under separate locks. It shows a finish time on a running run exactly when the
  supervisor wrote that time between the snapshot's first and third read (`ShellRuns.SnapshotIsTornIff`, with a trace in
  `ShellRuns.SnapshotCanBeTorn`); the stored record never does.
- The sweep counts a row as recovered even when its update failed; it is readable afterwards exactly when the update
  was written (`Recovery.RowKeepsMeaningIff`, `ToyCipher.UnwrittenRowIsLost`), and the file with the old keys is removed all
  the same (`Recovery.RemovalIsSafeIff`). `LIKE 'ENC:%'` ignores case, so it also selects rows it never rewrites
  (`Recovery.UnprefixedIsUntouched`).
- The fallback that stores plain text loses the JSON value `null` (`Crypto.EnvRoundTripIff`, `ToyCipher.NullIsLost`).

## Model

| member | source | states |
|---|---|---|
| `WgConf.CheckLine` | crates/pier-net-helper/src/protocol.rs:124-163 | one round of the validator refuses exactly the lines the whitelist of the nearest header's section does not admit, with the source's reason, and moves to the section of a header |
| `WgConf.Validate` | crates/pier-net-helper/src/protocol.rs:104-166 | the loop accepts exactly the texts whose every line is blank, a comment, one of two headers or an allowed `key = value`; a rejection names the first offending line and its reason |
| `WgConf.NoPrivateKeyForm` | crates/pier-net-helper/src/protocol.rs:91-102 | the form used over the wire accepts exactly the accepted texts without a PrivateKey directive |
| `WgConf.DirectiveAdmittedIff` | crates/pier-net-helper/src/protocol.rs:104-163 | for every directive name and value: a line `name = value` is admitted exactly in the section whose list names it, and `PrivateKey` only in `[Interface]` and not over the wire |
| `WgConf.DirectiveRefusal` | crates/pier-net-helper/src/protocol.rs:139-163 | a refused directive is refused for standing before any section, for being a key over the wire, or for not being on its section's list |
| `WgConf.LineRefusal` | crates/pier-net-helper/src/protocol.rs:117-138 | any other refused line is an unknown header, or neither header nor directive |
| `WgConf.AcceptedAppend` | crates/pier-net-helper/src/protocol.rs:104-166 | a text is accepted exactly when its parts are, each from the section the part before ends in |
| `WgConf.InjectPrivateKey` | crates/pier-net-helper/src/protocol.rs:171-190 | the loop reprints the lines with one key line behind the first `[Interface]` header, and fails exactly without such a header; `WgRead.InjectionReads` says what is read from the result |
| `WgConf.InsertKeepsVerdict` | crates/pier-net-helper/src/protocol.rs:171-190 | a PrivateKey entry behind the first `[Interface]` header turns an accepted key-free config into an accepted one with exactly that one key entry |
| `WgConf.InjectionKeepsVerdict` | crates/pier-net-helper/src/main.rs:503-516 | for every config accepted over the wire and every single-line key, the injected text passes the full whitelist with exactly one PrivateKey directive, inside `[Interface]` |
| `WgConf.InjectionUndone` | crates/pier-net-helper/src/protocol.rs:171-190 | dropping the injected line gives back the original lines exactly when none ends in a carriage return |
| `WgConf.CarriageReturnLost` | crates/pier-net-helper/src/protocol.rs:171-190 | the failing family: every injectable text that ends in a carriage return comes back with different lines |
| `WgConf.CarriageReturnWitness` | crates/pier-net-helper/src/protocol.rs:171-190 | `[Interface]` and a carriage return is an injectable member of it |
| `WgRender.RenderWgConf` | crates/pier-core/src/network/wireguard.rs:328-356 | the loop prints the interface block and one block per keyed remote peer, in order, skipping the node itself |
| `WgRender.RenderAcceptedIff` | crates/pier-core/src/network/wireguard.rs:318-356 | the helper accepts the rendered text exactly when every listed peer's name, key and endpoint adds only lines admitted in a `[Peer]` section |
| `WgRender.NewlineFreeIsClean` | crates/pier-core/src/network/wireguard.rs:318-356 | fields without a newline always satisfy that condition |
| `WgRender.NameCanSpoilRender` | crates/pier-core/src/network/wireguard.rs:318-356 | every name whose second line is neither blank, header nor directive makes the helper refuse the text |
| `WgRender.ProvisionedConfigIsWritable` | crates/pier-net-helper/src/main.rs:499-533 | with newline-free fields and key, the rendered text is accepted, has a header to inject behind, and the injected result is accepted |
| `WgRead.FirstLineIsValueIff` | crates/pier-core/src/network/wireguard.rs:328-356 | the first line of a field carries its whole value exactly when only whitespace follows |
| `WgRead.RenderReadsBackIff` | crates/pier-core/src/network/wireguard.rs:318-356 | the rendered text reads back as the node's interface and exactly the listed peers, each with its own key, endpoint and address, if and only if further lines of names are blank or comments and only whitespace follows the first line of keys and endpoints |
| `WgRead.AcceptedNameCanMislead` | crates/pier-core/src/network/wireguard.rs:318-356 | a family of names the helper accepts that give their peer further addresses |
| `WgRead.InjectableIff` | crates/pier-net-helper/src/protocol.rs:171-190 | a key can be injected exactly when some line reads as an `[Interface]` header |
| `WgRead.InjectionReads` | crates/pier-net-helper/src/protocol.rs:171-190 | read back, the injected text has one line more, right behind the first such header, which sets PrivateKey to the given key; every other line reads as before |
| `NetHelper.HelperState.GenerateKeypair` | crates/pier-net-helper/src/main.rs:455-497 | makes and stores a key only when there is none, whatever the tool answers; `NetHelper.KeypairOutcome` says what is left |
| `NetHelper.HelperState.WriteConfig` | crates/pier-net-helper/src/main.rs:499-533 | replaces `wg0.conf` only by the injected text, and only after both whitelist checks and a successful save |
| `NetHelper.HelperState.Apply` | crates/pier-net-helper/src/main.rs:611-662 | cancels, snapshots, syncs and arms a timer with the asked delay; every failure stops at its line; `NetHelper.ApplyOutcome` says what runs afterwards |
| `NetHelper.HelperState.Commit` | crates/pier-net-helper/src/main.rs:664-668 | cancels the timer and drops the backup |
| `NetHelper.HelperState.Rollback` | crates/pier-net-helper/src/main.rs:670-674 | cancels the timer, then restores |
| `NetHelper.HelperState.PerformRollback` | crates/pier-net-helper/src/main.rs:676-697 | renames the backup back and syncs, or without a backup removes the config and takes the interface down |
| `NetHelper.HelperState.CancelPendingRollback` | crates/pier-net-helper/src/main.rs:699-704 | takes the slot and aborts its task |
| `NetHelper.HelperState.Fire` | crates/pier-net-helper/src/main.rs:645-656 | a task past its deadline restores and empties the slot |
| `NetHelper.HelperState.SyncConf` | crates/pier-net-helper/src/main.rs:538-568 | a sync runs what is in `wg0.conf`, and fails without it |
| `NetHelper.HelperState.Up` | crates/pier-net-helper/src/main.rs:706-736 | a successful start runs what is in `wg0.conf`, and fails without it |
| `NetHelper.HelperState.Down` | crates/pier-net-helper/src/main.rs:738-746 | stops the interface and always answers ok |
| `NetHelper.HelperState.Uninstall` | crates/pier-net-helper/src/main.rs:771-784 | cancels the timer, then removes interface, config, backup and key as far as the tools allow |
| `NetHelper.ApplyOutcome` | crates/pier-net-helper/src/main.rs:611-662 | in every run an apply succeeds exactly when the delay is 1 to 600 s, `wg0.conf` is there and copied, and the sync works; then the interface runs `wg0.conf`, the backup holds the same text and one task sleeps for the asked delay; a failed apply leaves file and interface alone |
| `NetHelper.UndoOutcome` | crates/pier-net-helper/src/main.rs:645-697 | in every run an undo with a backup that is renamed installs exactly that backup and, with its sync, runs it; without one, file and interface go as far as the tools allow; no timer is left |
| `NetHelper.CommitOutcome` | crates/pier-net-helper/src/main.rs:664-668 | in every run a commit or uninstall leaves no timer, and removes exactly what its tools removed |
| `NetHelper.InterfaceOutcome` | crates/pier-net-helper/src/main.rs:706-746 | up and down change the interface and nothing else |
| `NetHelper.KeypairOutcome` | crates/pier-net-helper/src/main.rs:455-497 | a successful key generation leaves the key that was there or else the one just made, and fails exactly when there is none and none can be made and saved, or its public half is not derived |
| `NetHelper.WriteOutcome` | crates/pier-net-helper/src/main.rs:499-533 | for a single-line key a write succeeds exactly when the text passes over the wire, has an `[Interface]` header and is saved; then `wg0.conf` reads as the text with that key behind its first header; otherwise nothing changes |
| `NetHelper.AtMostOneTimer` | crates/pier-net-helper/src/main.rs:73-80 | in every serialised run at most one task sleeps, and the slot can abort it |
| `NetHelper.ArmedBackup` | crates/pier-net-helper/src/main.rs:611-662 | while a timer is armed, the backup is `wg0.conf` as of its apply, whatever was written since, and its deadline is at most 600 s after that apply |
| `NetHelper.UndoRestores` | crates/pier-net-helper/src/main.rs:645-697 | in every run a firing, or an explicit rollback before it, whose rename succeeds puts back exactly the bytes present at the apply and, with its sync, runs them; a firing waits at least the asked delay |
| `NetHelper.UndoReturnsToLiveIff` | crates/pier-net-helper/src/main.rs:25-30 | in every run such an undo leaves the interface with what it ran before the apply exactly when `wg0.conf` already held that at the apply |
| `NetHelper.DeadlineLetsItFire` | crates/pier-net-helper/src/main.rs:25-30 | a timer nobody disarmed can fire once its delay has passed: a missing commit is enough |
| `NetHelper.CommitDisarms` | crates/pier-net-helper/src/main.rs:664-668 | a firing after a commit belongs to an apply after that commit |
| `NetHelper.RollbackAfterCommitRemoves` | crates/pier-net-helper/src/main.rs:684-693 | after a commit an explicit rollback removes the configuration |
| `NetHelper.SwitchKeepsWrittenConfig` | crates/pier-net-helper/src/main.rs:25-30 | the family that misses: write, apply and fire end with the text just written |
| `NetHelper.ArmKeepsOneTimerIff` | crates/pier-net-helper/src/main.rs:641-658 | storing the handle keeps one timer exactly when the slot is empty at that moment |
| `NetHelper.OverlappingAppliesOutliveCommit` | crates/pier-net-helper/src/main.rs:623-661 | two applies that both cancel before either arms leave a timer that survives a commit and can fire |
| `NetHelper.ConfStaysWhitelisted` | crates/pier-net-helper/src/main.rs:499-533 | in every run without an explicit rollback that starts with a whitelisted `wg0.conf`, it is whitelisted in every state, whatever failed copies leave in the backup |
| `NetHelper.FirstTaintIff` | crates/pier-net-helper/src/main.rs:626-697 | in every run from whitelisted files, the first text outside the whitelist comes into `wg0.conf` exactly when a step renames a backup left so by the failed copy of an earlier apply; that step is an explicit rollback with no timer armed |
| `NetHelper.JunkWasLeft` | crates/pier-net-helper/src/main.rs:626-637 | in every run from whitelisted files, any text outside the whitelist in either file was left by an earlier failed copy |
| `NetHelper.HalfCopyIsRolledBackTo` | crates/pier-net-helper/src/main.rs:626-697 | a run that installs any text: a copy that stops half-way, then an explicit rollback |
| `NetHelper.JunkIsRefused` | crates/pier-net-helper/src/protocol.rs:136-138 | a text that the whitelist refuses, for that run |
| `NetHelper.RecheckNeverRefuses` | crates/pier-net-helper/src/main.rs:514-516 | the check after injection never refuses with a single-line key |
| `NetHelper.KeyIsStable` | crates/pier-net-helper/src/main.rs:455-497 | a node's key, once made, is the same until the node is uninstalled |
| `Addresses.SubnetHoldsAddress` | crates/pier-core/src/network/wireguard.rs:225-253 | parsing clears the host bits: an aligned block holding the written address |
| `Addresses.SizeIsShare` | crates/pier-core/src/network/wireguard.rs:225-285 | a subnet of a prefix has as many addresses as make the prefix's number of subnets fill the 32-bit space |
| `Addresses.HostsAreInner` | crates/pier-core/src/network/wireguard.rs:225-285 | its hosts are its addresses but the first and the last |
| `Addresses.AllocateIp` | crates/pier-core/src/network/wireguard.rs:301-312 | the loop returns the lowest unused host of the subnet, and fails exactly when every host is used |
| `Addresses.PlanIsFresh` | crates/pier-core/src/network/core_mesh.rs:198-208 | repeated allocation gives distinct unused addresses, and succeeds exactly when enough are free |
| `Addresses.PlanFromEmpty` | crates/pier-core/src/api/network.rs:213-232 | from an empty table the plan is the first n addresses in order |
| `Mesh.ProvisionedSorts` | crates/pier-core/src/api/network.rs:192-211 | the servers an enable seats are all own servers, local first, then by id |
| `Mesh.PlanGrows` | crates/pier-core/src/api/network.rs:213-232 | extending a plan by the lowest address it left free is planning one more; if that fails every longer plan fails |
| `Mesh.MeshTables.PutMesh` | crates/pier-core/src/api/network.rs:87-138 | changes the plan only for a valid subnet and port, a disabled mesh and no rows; `MeshLifecycle.PutStores` says to what |
| `Mesh.MeshTables.EnableMesh` | crates/pier-core/src/api/network.rs:146-239 | seats every own server in one transaction or changes nothing |
| `Mesh.MeshTables.DisableMesh` | crates/pier-core/src/api/network.rs:715-731 | drops all rows and the flag together |
| `Mesh.MeshTables.Propose` | crates/pier-core/src/api/peer_mesh.rs:186-287 | adopts another core's plan for every own server, local first and then by creation, and records its id, or changes nothing |
| `Mesh.MeshTables.StoreExternals` | crates/pier-core/src/api/peer_mesh.rs:266-284 | stores the owner's nodes over the others, later entries winning |
| `Mesh.MeshTables.Pair` | crates/pier-core/src/network/core_mesh.rs:233-268 | the owner's side of a pairing: the keyed nodes the other core reports replace those it had, with its id, or nothing changes |
| `Mesh.MeshTables.Teardown` | crates/pier-core/src/api/peer_mesh.rs:314-339 | drops exactly the external nodes of the peer and its recorded id |
| `MeshLifecycle.RunsStaySound` | crates/pier-core/src/api/network.rs:108-135 | in every reachable state a disabled mesh has no rows, addresses are unique and servers are unique |
| `MeshLifecycle.EnableHandsOut` | crates/pier-core/src/api/network.rs:146-239 | a successful enable gives the k-th server the k-th host address: all in the subnet, pairwise distinct, the local node first |
| `MeshLifecycle.EnableSucceedsIff` | crates/pier-core/src/api/network.rs:146-239 | enabling works exactly when the mesh is off and the servers fit the subnet; a failure changes nothing |
| `MeshLifecycle.LiveAllocationIsFrozen` | crates/pier-core/src/api/network.rs:108-117 | while any row exists no request changes subnet, port, keepalive or an address, or adds a row |
| `MeshLifecycle.KeysStay` | crates/pier-core/src/api/network.rs:303-312 | over any run of requests and provisionings a stored key stays until the mesh is disabled or the server removed |
| `MeshLifecycle.RowsStayHosts` | crates/pier-core/src/api/network.rs:213-232 | in every reachable state every allocated address is a host of the configured subnet |
| `MeshLifecycle.ProposalSeatsAllIff` | crates/pier-core/src/api/peer_mesh.rs:236-259 | a proposal seats every own server exactly when it assigns pairwise different addresses |
| `MeshLifecycle.RepeatedAddressDropsServer` | crates/pier-core/src/api/peer_mesh.rs:236-259 | a proposal that seats one of two servers |
| `MeshLifecycle.LastAssigneeStays` | crates/pier-core/src/api/peer_mesh.rs:236-259 | of the servers given the same address exactly the last in seating order keeps it |
| `MeshLifecycle.TeardownUndoesNodes` | crates/pier-core/src/api/peer_mesh.rs:314-339 | teardown removes the nodes and the id the proposal stored and nothing another core owns |
| `MeshLifecycle.PutStores` | crates/pier-core/src/api/network.rs:87-138 | the given subnet, port and keepalive are stored exactly when they can be used and nothing is allocated |
| `MeshLifecycle.ProposeStores` | crates/pier-core/src/api/peer_mesh.rs:186-287 | a proposal is taken exactly when the mesh is off, its owner known and every own server assigned; then the plan is on, the owner's nodes are the ones it reported last, all others stay, and its core id is recorded |
| `MeshLifecycle.ProposalWritesRows` | crates/pier-core/src/api/peer_mesh.rs:236-259 | each own server that is seated gets its assigned address, its host, the plan's port, no key and status pending |
| `MeshLifecycle.PairStores` | crates/pier-core/src/network/core_mesh.rs:233-268 | a pairing is stored exactly when the own mesh is on and keyed; then the peer's nodes are the keyed ones it reported last and all others stay |
| `MeshLifecycle.DisableAndTeardown` | crates/pier-core/src/api/network.rs:715-731 | a disable leaves no row and the rest; a teardown drops the peer's nodes and id and the rest stays |
| `MeshLifecycle.ServersChange` | crates/pier-core/src/db/schema.rs:794-871 | a removed server takes its mesh row, its external nodes and its core id along, and nothing else |
| `MeshLifecycle.PairedMeshesAreDisjoint` | crates/pier-core/src/network/core_mesh.rs:146-219 | pairing seats every node of the remote core inside the owner's subnet on addresses no two nodes of the two cores share |
| `MeshPairing.PlannedIsFresh` | crates/pier-core/src/network/core_mesh.rs:146-208 | nodes reported with the addresses planned for them have addresses nobody else has |
| `MeshPairing.RunsStayDisjoint` | crates/pier-core/src/network/core_mesh.rs:146-268 | over any number of pairings, teardowns, disables and enables no two nodes share an address, while reports follow their plan and no enable hands out a paired node's address |
| `MeshPairing.EnableSharesIff` | crates/pier-core/src/api/network.rs:171-232 | an enable makes two nodes share an address exactly when a paired node has one of the first host addresses, one for each server |
| `MeshPairing.EnableCanShare` | crates/pier-core/src/api/network.rs:171-232 | a run that ends so: enable, provision, pair, disable, add a server, enable |
| `Configure.Provisioner.Mint` | crates/pier-core/src/api/network.rs:305-381 | two calls in order; the node gets exactly the key its second answer brings, a refusal at either call marks only this node, an answer without a public key marks nothing |
| `Configure.Provisioner.Push` | crates/pier-core/src/api/network.rs:393-456 | succeeds exactly when both its calls were accepted, the write of this text and then the start; a refusal at either marks only this node |
| `Configure.Provisioner.MintAll` | crates/pier-core/src/api/network.rs:303-383 | phase 1 makes two calls for each node without a key, in order, and none for the others; each new key is the one its node answered; it stops at the first refusal, which is its last call |
| `Configure.Provisioner.PushAll` | crates/pier-core/src/api/network.rs:385-464 | phase 2 writes every node the text with all nodes and all keys and brings it up, in order, both accepted; it stops at the first refusal, which is its last call; `ConfigRead.ConfigShowsMesh` says what is read from that text |
| `Configure.Provisioner.MarkActive` | crates/pier-core/src/api/network.rs:459-463 | replaces the node's entry in the report and no other |
| `Configure.Provisioner.MarkError` | crates/pier-core/src/api/network.rs:485-497 | changes one row's status and nothing else |
| `Configure.Provisioner.ConfigureMesh` | crates/pier-core/src/api/network.rs:274-467 | for every peer list and every pattern of answers: ok exactly when every answer a whole run needs is accepted and every keypair brings a key; then every node was keyed, written and brought up in order and is active and listed once; no write before every node has a key, no stored key replaced, and an abort as `Configure.Aborted` spells out |
| `ConfigurePlan.FullScriptIsWell` | crates/pier-core/src/api/network.rs:274-467 | a finished script has all of the answers it needs |
| `ConfigurePlan.StoppedMintIsNotWell` | crates/pier-core/src/api/network.rs:303-383 | a phase 1 that stopped met an answer a whole run cannot do with |
| `ConfigurePlan.HalfScriptIsNotWell` | crates/pier-core/src/api/network.rs:385-464 | so did a phase 2 that stopped |
| `ConfigurePlan.ConfigSame` | crates/pier-core/src/api/network.rs:385-395 | the text for a node depends on keys, addresses and endpoints only |
| `ConfigRead.ConfigShowsMesh` | crates/pier-core/src/api/network.rs:385-395 | with newline-free fields the text for a node reads back as its own address and the mesh's port, then one section for every other node in order with that node's key, address, endpoint and keepalive, then one for every keyed node of a paired core |
| `ConfigRead.FullScriptShowsMesh` | crates/pier-core/src/api/network.rs:274-467 | after a finished provisioning the file each node accepted shows the whole mesh so, with the keys the nodes have now |
| `ConfigRead.FullScriptKeys` | crates/pier-core/src/api/network.rs:303-383 | in such a run each node without a key was asked, in order, to install and to make one, both answered with ok, and has the key of its answer |
| `ConfigRead.WellSentShowsMesh` | crates/pier-core/src/api/network.rs:385-395 | finished or not, every write was sent when all nodes had keys, and shows them all |
| `ConfigRead.ProvisionedNodesFindEachOther` | crates/pier-core/src/api/network.rs:274-467 | after it any two nodes find each other: each was written the other's key at the address the other's own file takes, and one port |
| `ConfigRead.RenderedReads` | crates/pier-core/src/network/wireguard.rs:318-356 | any rendered file with newline-free fields reads back as its interface and exactly the listed nodes, in order |
| `ConfigRead.AddressReads` | crates/pier-core/src/network/wireguard.rs:328-356 | a printed address is read back as the same 32-bit number |
| `ConfigRead.AuthorityReadsIff` | crates/pier-core/src/network/address.rs:25-59 | a printed endpoint reads back as its host and port exactly when the host has no colon or is taken for an IPv6 literal, and no bracket of its own |
| `ConfigRead.TailedAddressIsLost` | crates/pier-core/src/network/address.rs:25-31 | the family that fails: colons and a dot but no double colon; its endpoint cannot be read |
| `ConfigRead.MappedAddressIsLost` | crates/pier-core/src/network/address.rs:16-31 | a valid IPv6 address of that family |
| `Configure.AbortLeaves` | crates/pier-core/src/api/network.rs:393-456 | after an abort at node n the last answer is its refusal, no other node is newly in error, the nodes before it are keyed or, in phase 2, active, and it is reported last |
| `Ansi.NextMatch` | crates/pier-core/assets/static/ansi-to-html.js:23-46 | finds the first SGR sequence at or after a position |
| `Ansi.CloseAll` | crates/pier-core/assets/static/ansi-to-html.js:23-46 | closes every open span |
| `Ansi.ApplyCodes` | crates/pier-core/assets/static/ansi-to-html.js:23-46 | the loop over the codes prints the tags and counts the spans the code-by-code function gives |
| `Ansi.AnsiToHtml` | crates/pier-core/assets/static/ansi-to-html.js:23-46 | the two-index loop prints the function whose meaning the next rows state |
| `Ansi.HtmlMeansInput` | crates/pier-core/assets/static/ansi-to-html.js:13-46 | for every input, reading the output back succeeds (well nested, all closed) and gives every character inside exactly the styles seen since the last reset |
| `Ansi.SequenceIff` | crates/pier-core/assets/static/ansi-to-html.js:25-26 | a colour sequence is exactly ESC, a bracket, digits and semicolons, and an m |
| `Ansi.PrintedSequenceMeans` | crates/pier-core/assets/static/ansi-to-html.js:25-42 | for every nonempty list of codes printed in decimal and joined with semicolons, an omitted one being 0, the sequence is recognised whole and switches on exactly these codes |
| `Ansi.StylesAfter` | crates/pier-core/assets/static/ansi-to-html.js:32-42 | after any codes the styles in force are those of the supported codes since the last 0 or 39, in order |
| `Ansi.StyleTable` | crates/pier-core/assets/static/ansi-to-html.js:6-11 | the supported codes are 1, 30 to 37 and 90 to 97, each with its own style |
| `Ansi.OtherwiseShown` | crates/pier-core/assets/static/ansi-to-html.js:27-44 | a character that starts no sequence is shown in the styles in force |
| `Ansi.MeaningIsStripped` | crates/pier-core/assets/static/ansi-to-html.js:19-21 | forgetting the styles leaves the stripped text |
| `Ansi.HtmlTextIsStripped` | crates/pier-core/assets/static/ansi-to-html.js:13-46 | deleting tags and decoding entities gives exactly the stripped input |
| `Ansi.StripKeepsPlain` | crates/pier-core/assets/static/ansi-to-html.js:19-21 | text without escapes is left alone |
| `SqlText.LiteralRoundTrip` | crates/pier-core/src/api/db_browser.rs:86-92 | lexing a quoted literal gives back the string and stops behind it exactly when no quote follows and, for Postgres, no separator holding a newline leads to one (section 5.3 of ISO/IEC 9075-2); MySQL's two passes included |
| `SqlText.IdentReads` | crates/pier-core/src/api/db_browser.rs:77-82 | what an engine makes of a printed name: Postgres refuses an empty one and cuts it after 63 bytes |
| `SqlText.IdentRoundTrip` | crates/pier-core/src/api/db_browser.rs:77-82 | for both engines, lexing a quoted identifier gives back the name and stops behind it exactly when no quote follows and, for Postgres, it has 1 to 63 bytes |
| `SqlText.WhereRoundTrip` | crates/pier-core/src/api/db_browser.rs:820-836 | the printed WHERE clause reads back as its conditions exactly when the column names fit |
| `SqlText.StatementRoundTrip` | crates/pier-core/src/api/db_browser.rs:914-927 | the printed update or delete reads back as the requested one exactly when its names fit |
| `SqlText.FullPkNamesColumns` | crates/pier-core/src/api/db_browser.rs:802-817 | a key map passes the check exactly when it names the key columns and nothing else |
| `SqlText.FullKeyReachesOneRow` | crates/pier-core/src/api/db_browser.rs:820-836 | the clause is read as its conditions exactly when the columns fit; they hold of at most one row of a keyed table, and with a checked key of exactly the row carrying it |
| `SqlText.WriteTouchesOneRow` | crates/pier-core/src/api/db_browser.rs:1037-1048 | an update by key changes at most one row, a delete removes at most one |
| `SqlText.UpdateByKeyReachesItsRow` | crates/pier-core/src/api/db_browser.rs:911-927 | executing what the engine reads from the text of an update by a checked key sets the given column in exactly the row carrying the key, of that one table |
| `SqlText.DeleteByKeyRemovesItsRow` | crates/pier-core/src/api/db_browser.rs:1037-1048 | executing the text of a delete by a checked key removes exactly the row carrying it |
| `SqlText.SkipComment` | crates/pier-core/src/api/db_browser.rs:1278-1287 | one round of the loop drops the comment at the front; an unfinished one hides the rest |
| `SqlText.StripLeadingComments` | crates/pier-core/src/api/db_browser.rs:1275-1293 | the loop terminates and returns the stripped statement |
| `SqlText.StrippedIsBare` | crates/pier-core/src/api/db_browser.rs:1275-1293 | the result is a suffix that starts with neither space nor comment, and stripping again changes nothing |
| `SqlText.GapsVanish` | crates/pier-core/src/api/db_browser.rs:1275-1293 | any finite run of whitespace and closed comments in front does not change the result |
| `SqlText.ClassIgnoresGaps` | crates/pier-core/src/api/db_browser.rs:1261-1272 | nor the classification as a read |
| `SqlText.ReadStatementIff` | crates/pier-core/src/api/db_browser.rs:1261-1272 | behind any whitespace and comments, and whatever follows it, a statement is a read exactly when its first word in lower case is one of the eight |
| `SqlText.BlockCommentDroppedIff` | crates/pier-core/src/api/db_browser.rs:1283-1287 | every text an engine reads as one block comment is dropped whole exactly when its third character is no slash and, for Postgres, no comment opens inside it |
| `SqlText.OverlappingCommentCloses` | crates/pier-core/src/api/db_browser.rs:1283-1287 | a witness: one comment to MySQL of which the scan drops three characters |
| `Alerts.AlertRow.UpdateBreachWindow` | crates/pier-core/src/alerts/mod.rs:180-214 | opens the window on the first breach and clears it otherwise |
| `Alerts.AlertRow.SendAndRecord` | crates/pier-core/src/alerts/mod.rs:300-355 | with a channel records the event and moves the state even if the delivery failed; without one does nothing |
| `Alerts.AlertRow.ProcessRule` | crates/pier-core/src/alerts/mod.rs:111-140 | one reading: window, evaluation of the reloaded rule, then at most one event |
| `Alerts.WindowIsStretch` | crates/pier-core/src/alerts/mod.rs:180-214 | over every sequence of readings the window always opens with the current unbroken breached stretch |
| `Alerts.FiresFromOkIff` | crates/pier-core/src/alerts/evaluator.rs:22-57 | from ok a rule fires exactly when the channel is configured and the unbroken stretch has lasted the duration |
| `Alerts.StateIsLastEvent` | crates/pier-core/src/alerts/mod.rs:300-355 | the rule is firing exactly when the last recorded event is a Fire, and remembers when |
| `Alerts.ResolveFollowsFire` | crates/pier-core/src/alerts/evaluator.rs:22-57 | the recorded events are a prefix of (Fire+ Resolve)* |
| `Alerts.FiringAnswers` | crates/pier-core/src/alerts/evaluator.rs:22-57 | while firing, a reading resolves exactly when it does not breach and re-fires exactly after the cooldown |
| `Alerts.CooldownHolds` | crates/pier-core/src/alerts/evaluator.rs:22-57 | Fires with no Resolve between them are at least the cooldown apart |
| `Alerts.DurationHolds` | crates/pier-core/src/alerts/mod.rs:180-214 | Fires across a Resolve are at least the duration apart, even when the channel is missing at times |
| `Migration.Source.AcquireMigrationLock` | crates/pier-core/src/api/migration.rs:173-183 | wins exactly when it turns the flag from 0 to 1 |
| `Migration.Source.ReleaseMigrationLock` | crates/pier-core/src/api/migration.rs:188-194 | clears the flag if the database answers |
| `Migration.Source.CreateCopy` | crates/pier-core/src/api/migration.rs:335-364 | creates the stack on the target, or ends the pipeline |
| `Migration.Source.DeployCopy` | crates/pier-core/src/api/migration.rs:366-376 | a failed deploy may leave a copy running when its clean-up fails too |
| `Migration.Source.MoveToTarget` | crates/pier-core/src/api/migration.rs:335-376 | lookup, create and deploy; nothing of the source is touched |
| `Migration.Source.RunMigrationPipeline` | crates/pier-core/src/api/migration.rs:327-417 | takes exactly the steps of the script for the given answers and succeeds exactly when it reaches the deleted row: then row and flag are gone, the copy runs and the source is stopped if its teardown was answered with ok |
| `Migration.Source.MigrateStack` | crates/pier-core/src/api/migration.rs:226-325 | a whole request: validation, lock, pipeline, and release exactly on failure; `Migration.ScriptOutcome` says what is left |
| `Migration.PipelineOutcome` | crates/pier-core/src/api/migration.rs:327-417 | every field after a pipeline from its answers: it succeeds exactly when pairing, create, deploy and row deletion do, then row and flag are gone and the copy runs; the source stops exactly when its teardown came up and worked |
| `Migration.ScriptOutcome` | crates/pier-core/src/api/migration.rs:226-325 | every field after a whole request: a free flag is won by every movable request the database answers, a failure keeps the row and leaves the flag set exactly when the release misses the database |
| `Migration.EachFieldMovesIff` | crates/pier-core/src/api/migration.rs:173-417 | in one step of any interleaving each field moves exactly by the answers that may move it |
| `Migration.MovedMeansGone` | crates/pier-core/src/api/migration.rs:378-403 | in every run, once a request has moved its stack the row is gone for good, a teardown by that request came before, and if it was answered with ok the source's containers are gone too |
| `Migration.RunsStaySafe` | crates/pier-core/src/api/migration.rs:173-183 | over every interleaving of requests at most one holds the lock, and a request past its deploy has a running copy |
| `Migration.TeardownFollowsDeploy` | crates/pier-core/src/api/migration.rs:378-403 | teardown and row deletion, finished or dropped half-way, happen only after the same request's successful deploy |
| `Migration.NothingElseTouchesSource` | crates/pier-core/src/api/migration.rs:327-403 | every other step leaves the source row and its containers as they are |
| `Migration.FailureLeavesSource` | crates/pier-core/src/api/migration.rs:289-325 | a failure before that leaves the source as it was when the lock was taken, and clears the flag exactly when the release is written |
| `Migration.StackIsNeverLost` | crates/pier-core/src/api/migration.rs:327-417 | in every reachable state the stack is recorded at the source or runs on the target, and it runs somewhere |
| `Migration.LostLockSticks` | crates/pier-core/src/api/migration.rs:302-325 | a holder whose release misses the database, or that is dropped, leaves a flag nobody holds |
| `Migration.StuckIff` | crates/pier-core/src/api/migration.rs:302-325 | in every run the flag is stuck exactly when some holder has lost it so |
| `Migration.DropSticks` | crates/pier-core/src/api/migration.rs:302-325 | a run that ends so |
| `Migration.StuckForever` | crates/pier-core/src/api/migration.rs:173-183 | from then on no request ever gets the lock |
| `ComposeScan.CheckLine` | crates/pier-core/src/api/migration.rs:71-130 | one round of the scan: its two variables afterwards, or the reason to refuse |
| `ComposeScan.CheckStackStateless` | crates/pier-core/src/api/migration.rs:66-134 | the loop returns the verdict of the fold over the lines |
| `ComposeScan.FoundStays` | crates/pier-core/src/api/migration.rs:66-134 | the first line that gives an answer decides |
| `ComposeScan.EntryInBlock` | crates/pier-core/src/api/migration.rs:105-124 | inside a volumes block an entry goes on exactly when it starts as a path, plain or quoted; otherwise it is the reason given |
| `ComposeScan.OtherInBlock` | crates/pier-core/src/api/migration.rs:125-129 | any other line there ends the block exactly when it does not start with a dash |
| `ComposePrint.ScanDecides` | crates/pier-core/src/api/migration.rs:66-134 | on every text that shows a block-style stack, each service and list with its own indentation and blank lines, comment lines and trailing space anywhere, the scan answers stateless exactly when there is no top-level volumes section and every entry of a list indented deeper than its key starts as a path |
| `ComposePrint.PrintedShows` | crates/pier-core/src/api/migration.rs:66-76 | the plain print of any such stack is one of those texts |
| `ComposePrint.NoiseIsUnseen` | crates/pier-core/src/api/migration.rs:70-74 | a blank or comment line may be added anywhere |
| `ComposePrint.VerdictIsRightIff` | crates/pier-core/src/api/migration.rs:40-66 | so the answer is right exactly for the stacks that hide no volume: a bare container path, or anything but a bind mount in a list at the indentation of its key |
| `ComposePrint.VolumesCanHide` | crates/pier-core/src/api/migration.rs:40-66 | a member of each kind |
| `ShellStream.StreamBuf.AppendLine` | crates/pier-agent/src/shell.rs:69-93 | one line: appended whole, cut at the cap with a marker, or dropped |
| `ShellStream.BufferIsCappedStream` | crates/pier-agent/src/shell.rs:69-93 | after any lines the buffer is their whole stream if it fits, else its first 5 MiB and one marker; truncated exactly when bytes were dropped |
| `ShellStream.SnapshotsOnlyGrow` | crates/pier-agent/src/shell.rs:69-97 | a later snapshot extends every earlier one, and memory stays bounded |
| `ShellRuns.RunHandle.Settle` | crates/pier-agent/src/shell.rs:266-269 | the status changes only while running |
| `ShellRuns.RunHandle.CancelRun` | crates/pier-agent/src/shell.rs:344-349 | a cancel takes effect only while running |
| `ShellRuns.RunHandle.Supervise` | crates/pier-agent/src/shell.rs:259-292 | each branch of the supervisor, left alone, is its three critical sections in order |
| `ShellRuns.Registry.Sweep` | crates/pier-agent/src/shell.rs:373-395 | one round of the sweeper removes exactly the runs that finished before the cut-off |
| `ShellRuns.RunsStaySound` | crates/pier-agent/src/shell.rs:249-293 | at every point of every interleaving of supervisors, cancels, sweeper and pollers each record agrees with how its process ended and how far its supervisor is |
| `ShellRuns.RunsMoveForward` | crates/pier-agent/src/shell.rs:249-293 | from any moment to any later one a run only moves forward: finish time, exit code and settled status stay, but for the wait error |
| `ShellRuns.FinishIsFinal` | crates/pier-agent/src/shell.rs:259-292 | a finish time means not running, and is written once |
| `ShellRuns.CancelledStays` | crates/pier-agent/src/shell.rs:344-349 | a cancelled run is never relabelled success or timeout; only the wait-error branch overwrites it |
| `ShellRuns.FinalRecord` | crates/pier-agent/src/shell.rs:259-292 | once the supervisor is through, status, exit code and error agree: success exactly with code 0 and no cancel, timeout exactly with its error and no cancel |
| `ShellRuns.FinalRecordIs` | crates/pier-agent/src/shell.rs:259-292 | the final record in full: how the process ended fixes status, code and error, a cancel changes only the status, and the finish time is the clock of the section that wrote it |
| `ShellRuns.RequestOutcome` | crates/pier-agent/src/shell.rs:330-353 | a start registers a running run, a cancel makes a running run cancelled, and neither changes anything else |
| `ShellRuns.CancelDecides` | crates/pier-agent/src/shell.rs:344-349 | a cancel that meets a running run decides its status for good, unless the wait itself fails |
| `ShellRuns.GcDropsOnlyOldRuns` | crates/pier-agent/src/shell.rs:373-395 | only the sweeper removes a run, and only one that finished over five minutes before the reading it took when it woke |
| `ShellRuns.GcDropsOldRuns` | crates/pier-agent/src/shell.rs:373-395 | each round removes every run that had finished over five minutes before its reading when it took the map |
| `ShellRuns.RoundKeepsYoung` | crates/pier-agent/src/shell.rs:373-395 | a round with nobody in between, in any order of its reads, leaves exactly the runs not that old |
| `ShellRuns.SuccessShowsItsCode` | crates/pier-agent/src/shell.rs:298-324 | a complete snapshot that says success carries exit code 0 |
| `ShellRuns.SnapshotIsTornIff` | crates/pier-agent/src/shell.rs:312-321 | for every trace and every snapshot that has read its finish time: it shows a running run with a finish time exactly when the run was running at its first read and the supervisor wrote the finish time between that and its third |
| `ShellRuns.SnapshotCanBeTorn` | crates/pier-agent/src/shell.rs:312-321 | a trace that ends with such a snapshot |
| `Base64.RoundTrip` | crates/pier-core/src/crypto.rs:112-116 | decoding inverts encoding for every byte string (section 4 of RFC 4648) |
| `Base64.DecodeIffEncoded` | crates/pier-core/src/crypto.rs:129-130 | a text decodes to some bytes exactly when it is their one canonical encoding |
| `Base64.EncodeStaysInAlphabet` | crates/pier-core/src/crypto.rs:112-116 | nothing outside the alphabet, so no colon, is written |
| `Base64.GroupsSpellBytes` | crates/pier-core/src/crypto.rs:112-116 | every three bytes become four letters that spell the same 24 bits |
| `Base64.TailIsPadded` | crates/pier-core/src/crypto.rs:112-116 | one or two bytes at the end are spelled as if zeros followed, with padding; the length is four for every three bytes begun |
| `Base64.LettersAreTabled` | crates/pier-core/src/crypto.rs:112-116 | the letters are those of table 1 of RFC 4648 |
| `Crypto.StoredOpens` | crates/pier-core/src/crypto.rs:119-144 | the stored form of any nonce and ciphertext is taken apart into exactly these |
| `Crypto.DecryptUndoesEncrypt` | crates/pier-core/src/crypto.rs:101-144 | whatever was sealed under a key is read back under it |
| `Crypto.DecryptsIffStored` | crates/pier-core/src/crypto.rs:119-144 | a prefixed text decrypts to a plaintext exactly when it is the prefix, a 12-byte nonce and a ciphertext in base64 with a colon between, and the ciphertext opens to it |
| `Crypto.EncryptSeals` | crates/pier-core/src/crypto.rs:101-144 | sealing prints exactly such a text and fails exactly when the cipher does; a text without the prefix is its own plaintext |
| `Crypto.EnvIsAlwaysJson` | crates/pier-core/src/crypto.rs:159-188 | a reader of env_json always gets JSON |
| `Crypto.EnvReads` | crates/pier-core/src/crypto.rs:159-188 | a reader gets the plain text if it is JSON and not null, the plaintext of a sealed text if that is JSON, and the empty object otherwise |
| `Crypto.EnvRoundTripIff` | crates/pier-core/src/crypto.rs:146-188 | what is written is read back exactly when it is JSON and, if sealing failed, not `null` |
| `Recovery.KeyFileIsReadBack` | crates/pier-core/src/crypto_recovery.rs:28-44 | a file of 32-byte keys, one a line, is read as those keys in that order |
| `Recovery.KeyLineReads` | crates/pier-core/src/crypto_recovery.rs:28-44 | a line with the base64 of at least 32 bytes holds the first 32 of them, a shorter one no key |
| `Recovery.FirstReadIs` | crates/pier-core/src/crypto_recovery.rs:105-112 | the first key that decrypts the row to JSON decides, and nothing is read exactly when none does |
| `Recovery.FateIff` | crates/pier-core/src/crypto_recovery.rs:95-134 | a row is left alone, recovered or lost exactly by which keys read it and whether sealing works |
| `Recovery.CountsAreSizes` | crates/pier-core/src/crypto_recovery.rs:91-135 | the counters are the numbers of rows of each kind |
| `Recovery.Services.FindPlain` | crates/pier-core/src/crypto_recovery.rs:105-112 | the keys are tried in order and the first that yields JSON wins |
| `Recovery.Services.Restore` | crates/pier-core/src/crypto_recovery.rs:95-134 | one row: left alone, sealed again under the stable key, or lost |
| `Recovery.Services.Sweep` | crates/pier-core/src/crypto_recovery.rs:91-135 | the loop rewrites exactly the listed rows and the three counters add up to their number |
| `Recovery.Services.RunRecovery` | crates/pier-core/src/crypto_recovery.rs:14-143 | the whole run: no file, an unreadable one or a failed query changes nothing; a file without a key, or any sweep, ends with its removal |
| `Recovery.RowKeepsMeaningIff` | crates/pier-core/src/crypto_recovery.rs:95-134 | afterwards the stable key reads what the first of stable and old keys read before, exactly when the row needed no old key or was sealed and written |
| `Recovery.SweepKeepsMeaning` | crates/pier-core/src/crypto_recovery.rs:91-135 | over every table and key list: selected rows keep their meaning under the stable key, unreadable rows keep their bytes, other rows are untouched |
| `Recovery.RemovalIsSafeIff` | crates/pier-core/src/crypto_recovery.rs:91-143 | removing the file loses no row exactly when every row that needed an old key was sealed again and written |
| `Recovery.SecondSweepIsIdle` | crates/pier-core/src/crypto_recovery.rs:91-135 | a second sweep, in any row order, recovers nothing and changes nothing |
| `Recovery.UnprefixedIsUntouched` | crates/pier-core/src/crypto_recovery.rs:67 | a selected row without the exact prefix is never rewritten |
| `ToyCipher.ToyIsLawful` | crates/pier-core/src/crypto.rs:101-144 | the laws assumed of cipher, text encoding and JSON can be kept together |
| `ToyCipher.NullIsLost` | crates/pier-core/src/crypto.rs:146-188 | a JSON value that is not read back |
| `ToyCipher.UnwrittenRowIsLost` | crates/pier-core/src/crypto_recovery.rs:115-128 | a row counted as recovered that no key of the core reads |
| `NpmLogin.Tables.BeginLogin` | crates/pier-core/src/api/npm_web_login.rs:107-158 | opens a pending session for 600 seconds |
| `NpmLogin.Tables.PollDone` | crates/pier-core/src/api/npm_web_login.rs:160-234 | hands out and clears the text in one transaction; past the end it expires the session; `NpmLogin.PollOutcome` lists every answer |
| `NpmLogin.Tables.AuthorizeSession` | crates/pier-core/src/api/npm_web_login.rs:295-379 | mints a token only for a pending session in time, with both writes or neither |
| `NpmLogin.Tables.SweepOnce` | crates/pier-core/src/api/npm_web_login.rs:401-419 | deletes exactly the sessions whose end lies before the clock |
| `NpmLogin.BeginOutcome` | crates/pier-core/src/api/npm_web_login.rs:107-158 | an unused id gets a pending session for ten minutes and nothing else changes |
| `NpmLogin.PollOutcome` | crates/pier-core/src/api/npm_web_login.rs:160-234 | every answer of a poll and the rows after it, by the session's state, the clock and the database |
| `NpmLogin.AuthorizeOutcome` | crates/pier-core/src/api/npm_web_login.rs:295-379 | a token is issued exactly for a pending session in time with both rows written, and each refusal has its exact condition |
| `NpmLogin.SweepOutcome` | crates/pier-core/src/api/npm_web_login.rs:401-419 | after a sweep exactly the sessions not past their end are left, as they were |
| `NpmLogin.WaitsUntilAuthorized` | crates/pier-core/src/api/npm_web_login.rs:160-234 | in every run, from its begin until an authorization and within ten minutes, a session answers every poll that reaches the database with wait |
| `NpmLogin.GoneAfterDelivery` | crates/pier-core/src/api/npm_web_login.rs:211-229 | after a delivery, while no clock has passed its end, every later poll is told that the session is over |
| `NpmLogin.OneTokenPerSession` | crates/pier-core/src/api/npm_web_login.rs:320-373 | in every run with fresh ids at most one token is minted for a session |
| `NpmLogin.OneDelivery` | crates/pier-core/src/api/npm_web_login.rs:160-234 | at most one poll of a session is given a token |
| `NpmLogin.NothingAfterExpiry` | crates/pier-core/src/api/npm_web_login.rs:199-210 | nothing is minted or delivered by a request whose clock is more than 600 seconds past that of the session's begin |
| `NpmLogin.DeliveryFollowsAuthorize` | crates/pier-core/src/api/npm_web_login.rs:211-229 | a delivered text is the one an earlier authorization of that session issued |
| `NpmLogin.TimelyPollIsServed` | crates/pier-core/src/api/npm_web_login.rs:160-234 | after an authorization the first poll that meets a working database gets that token, while no clock has passed the end |

## Left out

- HTTP routing, JSON shapes, roles, translations, audit rows, domains and federation views.
- Docker, WireGuard, systemd and network calls: each is one open answer. Route syncing, temporary files, the status and self-update operations of the helper.
- `wg-quick` is taken to refuse a missing `wg0.conf`. A failing `wg syncconf` that has changed part of the interface already: a failed sync leaves the interface as it was.
- Overlapping helper requests, beyond the two lemmas about cancelling and arming.
- CIDR and IPv4 text as input, and the normalising of an entered host: addresses are 32-bit numbers and server ids are naturals, so id order is number order.
- Matching peers by base URL: the owner of a proposal is passed in resolved. The generated core id is not part of this model.
- Two pairings, or two provisionings, at once: each is one step.
- The helper calls a disable makes, and its per-node result list.
- A mesh that is disabled while it is being configured, and database errors while it is: a mesh transaction either runs or changes nothing.
- HTML beyond the tags and entities the translator prints: the reader refuses everything else.
- MySQL's own limits on names (64 characters, none empty), which it checks after lexing.
- MySQL's grammar joining adjacent string tokens (its lexer does not), and its executable comments.
- Column types, collations and MySQL modes without backslash escapes: key values compare as text or null. Filters and inserts of the database browser.
- Alphanumeric and lower-case tables in the classification of a statement: they are parameters.
- The float comparison of a reading, missing readings and timestamp text: a reading is a boolean at whole seconds. Event hooks of the alert engine.
- An operator deleting a stack while it is being moved.
- Compose stacks in flow style, with `~` paths or long-form volumes: no claim is made for them.
- The raw pipe of a shell run: lines arrive as already split, so a missing last newline or a carriage return is the reader's business. Lossy text conversion of snapshots.
- A cancel is modelled from the moment it holds the handle, so it may still write after the sweeper has removed the run.
- AES-GCM, UTF-8 and JSON parsing: functions with only their round-trip laws. Loading and generating the process key, and its self-check.
- Writers that run during the recovery sweep.
- Viewing a session's status, token storage beyond its id and text, revoking tokens, and the printed URLs of the web login.
