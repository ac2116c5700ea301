# A verified model of the multinic agent's reconciler

The agent runs on every node of a cluster. In each polling cycle it reads the node's interface
rows from the database, gives each row's device a name `multinic0` .. `multinic9`, writes a
config file (ifcfg on RHEL, Netplan YAML on Ubuntu), rolls back what fails, records a status, and
then deletes config files that belong to no row. This project models that reconciler in Dafny and
proves what a cycle achieves, what every run keeps, and exactly when the intended behaviour fails.

The state of a node is three maps: device name to MAC address (a table in kernel order), file name
to content, and row id to the `netplan_success` column. Every external command is a parameter that
says how it turns out: a `Plan` (or `NetplanPlan`) fixes the results of one worker's commands, and
a lemma over all plans is a lemma over all failures. Go's in-place code is modelled by classes and
methods with loops (`Rhel.Host`, `Netplan.NetplanHost`, the strategies of `Polling`), each proved
against a function on values; the theorems are about those functions.

## Modules

| file | content |
|---|---|
| `Text.dfy` | the string operations of Go's library that the agent uses, with their inverse laws |
| `Entities.dfy` | interface row, validation, status and its column |
| `IpLink.dfy` | device table, text of `ip link show`, the scanner on it |
| `Naming.dfy` | allocation of the ten names |
| `Ifcfg.dfy`, `CutFile.dfy` | the ifcfg printer, its two readers, drift; generated files cut off in the middle |
| `Rhel.dfy` | the RHEL adapter and one worker of the configure use case |
| `Listing.dfy`, `Cleanup.dfy` | removal of orphaned ifcfg files |
| `Cycle.dfy`, `Convergence.dfy`, `Stealing.dfy` | one serialised cycle, and from which nodes exactly it converges |
| `Retry.dfy`, `NetplanRetry.dfy` | what a failed attempt leaves behind, and which failures exactly are forgotten |
| `Edits.dfy`, `NetplanEdits.dfy` | what the drift check sees of an edited row, and that an edit takes effect within one cycle |
| `Foreign.dfy`, `NetplanForeign.dfy` | files that no cycle touches, in terms of their names |
| `Disagreement.dfy` | a file that the two readers read differently |
| `Pool.dfy`, `Serial.dfy`, `Interleaving.dfy` | the worker pool as small steps in arbitrary interleaving; with capacity 1 it is the sequential pass |
| `Collision.dfy` | several workers at once: when exactly one can take another's name |
| `Recovery.dfy`, `Settling.dfy`, `Resting.dfy`, `RetryRuns.dfy` | runs of concurrent cycles with faults and reboots, how they come to rest, and that recorded failures are retried in them |
| `Cidr.dfy`, `Netplan.dfy`, `NetplanCleanup.dfy` | IPv4 CIDR notation (section 3.1 of RFC 4632), the Netplan adapter, worker and cleanup |
| `NetplanConvergence.dfy`, `NetplanTurns.dfy`, `NetplanStealing.dfy` | one serialised Netplan cycle, and from which nodes exactly it converges |
| `NetplanPool.dfy`, `NetplanCollision.dfy`, `NetplanResting.dfy` | Netplan workers at once, runs of concurrent cycles with faults, and how they come to rest |
| `NetplanLosses.dfy` | rows that the Netplan path does not settle |
| `Polling.dfy` | back-off and adaptive polling, the polling loop |
| `Example.dfy` | concrete nodes on which the hypotheses of the main theorems hold |

## Main results

- **Recovery (RHEL).** There is an invariant of every run of cycles with any number of workers at
  once, any interleaving of their small steps, any command failing in any way and any cycle cut
  short (`Recovery.HistoryKeepsSound`). From any node that satisfies it, one faultless serialised
  cycle leaves nothing to do (`Recovery.RecoversFromFaults`), and so does any sequence of faultless
  concurrent cycles that is longer than the number of devices without a name
  (`Settling.ConcurrentCyclesSettle`, `Settling.ConcurrentRecovery`). The invariant asks of the rows
  that they are valid, have distinct ids and MAC addresses and are fixed points of drift detection
  (which rows those are is characterised exactly); of the devices that each row has exactly one,
  that enough names are free, and that the devices of configured rows have theirs; and of the files
  only that the two readers of a slot's file agree.
- **Recovery (Netplan).** What the exact convergence theorem needs of a node (`NetplanTurns.NetBase`:
  valid fixed-point rows with distinct ids and MAC addresses, one device each, enough free names, and
  YAML files with `multinic` in their names bearing canonical names) survives every run of concurrent
  cycles with any failures, and after it more faultless serialised cycles than there are devices
  without a name leave nothing to do (`NetplanPool.NetplanConcurrentRecovery`). Where in addition the
  devices of configured rows have their names, one such cycle is enough
  (`NetplanConvergence.NetplanRecoversFromFaults`).
- **Convergence, exactly.** Without the assumption that configured rows' devices have their names, a
  serialised cycle converges if and only if the node before it has no exposed row: one that is
  configured and without a name, for which the name that its place among the nameless rows leads to
  has a suitable file, with a later nameless row behind it (`Stealing.CycleConvergesExactly` and
  `NetplanStealing.NetCycleConvergesExactly`). Such a node comes to rest all the same: every cycle
  that does not end quiet gives some device its name (`Resting.CyclesComeToRest`,
  `Resting.RebootThenRest`, `NetplanResting.NetCyclesComeToRest`).
- **Edits.** A file or document written for one row suits another exactly when MAC address, address,
  prefix or network, and MTU are the same (`Edits.EditsAreSeen`, `NetplanEdits.NetEditsAreSeen`), so an
  edit in the database takes effect within one cycle, whatever fails in the workers of other rows
  (`Edits.EditTakesEffect`, `NetplanEdits.NetEditTakesEffect`). Files that are none of the agent's
  business survive every concurrent cycle (`Foreign.RoundKeepsForeign`).
- **The pool.** With capacity 1 every interleaving of small steps is the sequential pass, so
  finished workers keep device and file through all later failures and rollbacks. With capacity 2
  or more, a faultless run in which a row that finished successfully ends without its file exists if
  and only if at least two rows are without a name (`Collision.CollisionExactly`).

## Where the code misses what it intends

Each point is a lemma with the inputs, and the exact condition beside it.

- A CIDR prefix with a leading space is written but read back trimmed, so the row is rewritten in
  every cycle (`Ifcfg.PrefixSpaceDrifts`; all such rows: `Ifcfg.FixedPointExactly`).
- A line break in the address column lets the file carry a second HWADDR line, which the cleanup
  reads first (`Ifcfg.SmuggledHwaddr`); it then deletes the active row's own file exactly when that
  MAC address is not active (`Cleanup.GeneratedIsOrphanExactly`).
- After a reboot that gives devices their kernel names back, a configured row whose old file is
  under the lowest free name is skipped although its device has no name; the next row without a
  name takes over name and file, even with capacity 1 (`Convergence.LostSlotIsStolen`,
  `Example.RebootedNodeLosesFile`; exactly when: `Stealing.StolenExactly`). The same happens under
  Netplan (`NetplanLosses.NetLostSlotIsStolen`; exactly when: `NetplanStealing.NetStolenExactly`).
- With room for two workers, two rows without a name can be given the same one; the loser's rollback
  deletes the winner's file (`Collision.TwoWorkersCollide`, `Example.FreshNodeCollides`; exactly
  when: `Collision.CollisionExactly`), or, when it comes before the winner's validation, makes both
  fail (`Collision.BothFail`). Under Netplan both succeed and are recorded, and one is left
  with the name and the other with the document (`NetplanCollision.TwoCrewCollide`,
  `NetplanLosses.OneNameForTwo`); a recorded row's device has the name exactly if the name was its
  own or free when the attempt was made (`NetplanLosses.TakenNamePasses`).
- The drift check takes the last HWADDR of a file and the cleanup the first; where a slot's file
  makes them differ, a row can skip and lose its file in the same cycle
  (`Disagreement.SkippedRowLosesFile`, `Example.DoubtfulNodeLosesFile`; exactly when:
  `Convergence.SkipSurvivesCleanupExactly`).
- The RHEL rollback reports success whatever happens, so the cleanup counts failed removals as
  deleted and never reports an error (`Cleanup.ExecuteIfcfgCleanup`).
- A Configure that fails before writing anything still costs the file that was under the name
  (`Rhel.RollbackRemovesForeignFile`).
- A failure whose Failed status cannot be stored may be forgotten (`Retry.UnrecordedFailureIsForgotten`;
  exactly when: `Retry.ForgottenExactly`, `NetplanRetry.NetForgottenExactly`).
- A Netplan row whose CIDR column holds its own host address instead of the network is rewritten in
  every cycle (`Netplan.HostBitsDrift`). So is a row with a differing file that bears its interface
  name and comes ahead of its own in the sorted listing, such as `00-multinic0.yaml`, which no cleanup
  removes (`NetplanLosses.ShadowedRowNeverSettles`, `NetplanLosses.OldFileShadows`; exactly when:
  `NetplanLosses.NextSkipsExactly`).
- An orphaned `95-multinic1.yaml` is counted as deleted while `91-multinic1.yaml` is the file removed
  (`NetplanCleanup.RenumberedFileMisdirects`, for all numbers; exactly when the cleanup is right:
  `NetplanCleanup.NetplanCleanupExactly`). An orphan without a part that starts with `multinic`, such as
  `9-xmultinic.yaml`, makes it remove `90-.yaml` (`NetplanForeign.NamelessForm`; exactly when:
  `NetplanForeign.NamelessOrphan`).
- The back-off clamp comes after the conversion to a 64-bit duration. With the defaults of 30s, 300s
  and factor 2, the thirtieth failure in a row yields a negative interval and the ticker panics
  (`Polling.DefaultsOverflow`, `Polling.DefaultsSurvive`); out-of-range conversion is taken as on amd64.

## Model

| member | source | states |
|---|---|---|
| Entities.ValidMacExactly | internal/domain/entities/network_interface.go:79-82 | a MAC address text passes exactly if it spells six octets in hexadecimal of either case, separated by ':' or '-' |
| Entities.ValidateExactly | internal/domain/entities/network_interface.go:53-61 | a row passes exactly with such a MAC address and a node name, and the MAC address is judged first |
| Entities.ValidMacText | internal/domain/entities/network_interface.go:79-82 | a MAC address that passes validation, lower-cased, has nothing to trim, no quotes and no line break, so the text formats carry it unchanged |
| Entities.StatusRoundTrip | internal/infrastructure/persistence/mysql_repository.go:155-164 | a stored status comes back from the next query exactly when it is not Failed; Failed comes back as Pending, as does every stored value other than that of Configured |
| Entities.Fetch | internal/infrastructure/persistence/mysql_repository.go:312-376 | a query returns every row in order, with its static columns and its status decoded from the column |
| IpLink.FindDeviceByMAC | internal/infrastructure/network/rhel_adapter.go:214-250 | the line-by-line loop computes the scan function on the command's output |
| IpLink.NoiseIsSkipped | internal/infrastructure/network/rhel_adapter.go:218-232 | blank and non-Ethernet lines, however many, do not change what is found or which device is current |
| IpLink.EntryScanned | internal/infrastructure/network/rhel_adapter.go:224-247 | a printed device decides on itself alone: it is returned if its address matches, otherwise the scan goes on after it |
| IpLink.ScanFindsDevice | internal/infrastructure/network/rhel_adapter.go:203-251 | sound and complete: on the rendering of any table with any noise, the result is the first Ethernet device with the MAC address ignoring case, and none exactly when there is none |
| Naming.NamesAreSlots | internal/domain/entities/network_interface.go:85-88 | the valid names are exactly the ten that the allocator tries |
| Naming.LowestCarrying | internal/domain/services/interface_naming.go:54-68 | the least name whose device has the MAC address and whose query works, none exactly when no name does |
| Naming.LowestFree | internal/domain/services/interface_naming.go:36-50 | the least name that no device has, none exactly when every name is taken |
| Naming.GenerateNextName | internal/domain/services/interface_naming.go:36-50 | the lowest name not in use, none exactly when all ten are |
| Naming.GenerateNextNameForMAC | internal/domain/services/interface_naming.go:54-72 | the lowest name that carries the MAC address, else the lowest unused one; fails exactly when all ten are used by other MAC addresses |
| Naming.NameIsStable | internal/domain/services/interface_naming.go:54-72 | the answer stays while the device keeps the name and no lower name comes to carry the address, whatever else changes |
| Naming.FreeNameIsStable | internal/domain/services/interface_naming.go:54-72 | a free name handed out does not depend on the names above it |
| Ifcfg.GenerateIfcfgContent | internal/infrastructure/network/rhel_adapter.go:254-280 | appending settings one by one yields the text of the row's settings, which `Edits.FileLines` spells out |
| Edits.FileLines | internal/infrastructure/network/rhel_adapter.go:255-277 | the file of a row without line breaks, line by line: DEVICE and NAME of the interface itself, TYPE=Ethernet, ONBOOT=yes, BOOTPROTO=none, then IPADDR and PREFIX for an address with a CIDR of one '/', MTU if positive, HWADDR in lower case |
| Ifcfg.ParseIfcfgFile | internal/application/usecases/configure_network.go:417-450 | the loop over the lines computes the reader in which the last assignment of a key wins |
| Edits.LineMeaning | internal/application/usecases/configure_network.go:422-446 | what a HWADDR, IPADDR, PREFIX and MTU line each do to the settings read so far |
| Ifcfg.ReadBack | internal/application/usecases/configure_network.go:417-450 | round trip: every setting of a row without line breaks comes back trimmed, decimal MTU included, and what was not written comes back empty |
| Ifcfg.FixedPointExactly | internal/application/usecases/configure_network.go:385-475 | a freshly generated file is judged not drifted if and only if MTU >= 0, the MAC address has clean edges, and the address is empty or clean with a CIDR of exactly one '/' whose prefix is clean or blank |
| Edits.DriftExactly | internal/application/usecases/configure_network.go:396-464 | the file written for one row against any other row, setting by setting |
| Edits.EditsAreSeen | internal/application/usecases/configure_network.go:396-464 | for rows with clean texts and addresses: the file of one suits the other if and only if MAC address ignoring case, address, prefix and MTU are the same |
| Edits.AddressEditsAreSeen | internal/application/usecases/configure_network.go:396-464 | the same for rows without addresses, and an address set or taken away is always seen |
| Ifcfg.PrefixSpaceDrifts | internal/application/usecases/configure_network.go:454-464 | a row without edge whitespace that drifts for ever: its prefix begins with a space |
| Ifcfg.GetMACAddressFromIfcfgFile | internal/application/usecases/delete_network.go:300-319 | the loop returns the value of the first HWADDR line, freed of quotes |
| Edits.QuotedHwaddr | internal/application/usecases/delete_network.go:309-314 | the value is read without the quotes around it, whichever and however many they are |
| Ifcfg.GeneratedText | internal/infrastructure/network/rhel_adapter.go:254-280 | the lines of the generated file of any row with a valid MAC address, line breaks inside the address included |
| Ifcfg.CleanupReads | internal/application/usecases/delete_network.go:306-316 | from any generated file the cleanup reads the row's lower-cased MAC address unless a line break in the address or prefix brings in another |
| Ifcfg.ReadersAgree | internal/application/usecases/delete_network.go:300-319 | without line breaks in the row, both readers get the lower-cased MAC address |
| Ifcfg.SmuggledHwaddr | internal/infrastructure/network/rhel_adapter.go:262-268 | an address with a line break followed by a HWADDR line makes the cleanup read that value |
| CutFile.CutIsCoherent | internal/infrastructure/network/rhel_adapter.go:132-134 | wherever the write of a good row's file is cut off, the two readers do not disagree on the MAC address left in it |
| CutFile.CutDrifts | internal/application/usecases/configure_network.go:396-402 | a generated file that lacks even one character is drifted, so a cut-off write is always repaired |
| Rhel.FindDevice | internal/infrastructure/network/rhel_adapter.go:203-251 | on the host's own printed table the scanner finds the first device of the MAC address, or fails with the command |
| Rhel.RenameDevice | internal/infrastructure/network/rhel_adapter.go:86-113 | down, rename, up with early exits leave the table that the link step describes, names distinct |
| Rhel.WriteConfig | internal/infrastructure/network/rhel_adapter.go:115-154 | write, check and restart leave the files that the write step describes, also for writes cut off or unseen |
| Rhel.Configure | internal/infrastructure/network/rhel_adapter.go:65-155 | the whole new state and result for every combination of command failures |
| Rhel.ValidateInterface | internal/infrastructure/network/rhel_adapter.go:158-180 | succeeds exactly when the commands work, the device has the name and the file exists |
| Rhel.Rollback | internal/infrastructure/network/rhel_adapter.go:183-200 | always reports success; removes the named file and nothing else when the removal works |
| Rhel.ProcessInterface | internal/application/usecases/configure_network.go:155-228 | validate, configure, validate device, record, each with its rollback, as one state change |
| Rhel.CheckRHELNeedProcessing | internal/application/usecases/configure_network.go:539-551 | decides on the file of the row's name, as `Edits.WorkerSkipsExactly` spells out |
| Rhel.ProcessInterfaceWithCheck | internal/application/usecases/configure_network.go:497-551 | naming, drift check, processing and failure status as one state change with its outcome |
| Edits.WorkerSkipsExactly | internal/application/usecases/configure_network.go:540-551 | a worker skips if and only if it is given that name, the file is there, readable and not drifted, and the row is not pending |
| Edits.InvalidRowTouchesNothing | internal/application/usecases/configure_network.go:158-163 | a row that does not pass validation is never processed, and its worker changes neither devices nor files |
| Edits.ProcessedMeans | internal/application/usecases/configure_network.go:171-188 | after a success, whatever else the plan says, the device has the name, the file is the row's own text and the row is stored as configured |
| Edits.EditedRowIsProcessed | internal/application/usecases/configure_network.go:540-551 | a row edited since its file was written is processed by the next faultless worker, which leaves the file of the edited row and nothing to do |
| Edits.EditTakesEffect | cmd/agent/main.go:213-236 | an edit takes effect within one cycle, whatever fails in the workers of other rows and in the cleanup |
| Rhel.Host.UpdateInterfaceStatus | internal/infrastructure/persistence/mysql_repository.go:155-192 | stores the encoded status of that row only; fails when the database does or the row is missing |
| Rhel.ConfigureConservesDevices | internal/infrastructure/network/rhel_adapter.go:74-113 | with any command failing: no MAC address is lost or gained, only the first device of the row's MAC address can change its name, names stay distinct |
| Rhel.SlotIsOwnOrFree | internal/domain/services/interface_naming.go:54-72 | the name a sequential worker gets is already its MAC address's or was free |
| Rhel.WorkerFrame | internal/application/usecases/configure_network.go:497-528 | a worker touches no file but its name's, no status but its row's, no device but its MAC address's; skipping and naming failures change nothing |
| Rhel.RollbackEffect | internal/application/usecases/configure_network.go:200-247 | after any failure in Configure or Validate the file is gone and all others are as before, so the files are recovered exactly when that file did not exist |
| Rhel.RollbackTwice | internal/infrastructure/network/rhel_adapter.go:183-200 | rolling back twice equals once |
| Rhel.RollbackRemovesForeignFile | internal/application/usecases/configure_network.go:201-211 | a Configure that found no device still removes the file that was under the name |
| Rhel.RecordedFailureIsRetried | internal/application/usecases/configure_network.go:519-524 | a failure whose status is stored is not skipped by any later worker for the row, in any later state |
| Retry.ConfigureLeaves | internal/infrastructure/network/rhel_adapter.go:65-155 | for a good row with one device: when exactly Configure succeeds and when exactly it leaves a suitable file, for every way its commands can turn out |
| Retry.ForgottenExactly | internal/application/usecases/configure_network.go:519-524 | a failed attempt is skipped next time if and only if the failure was not stored, the row was stored as configured before, and the attempt left a suitable file: all but the record of success worked, or nothing was removed and the file is the whole new one or the suitable old one; where a failing MAC query made the attempt run under a name that the device then does not get, the file of its own name is suitable |
| Retry.UnrecordedFailureIsForgotten | internal/application/usecases/configure_network.go:622-624 | one such failure: restart, removal and record fail, all else works |
| Cleanup.FindOrphanedIfcfgFiles | internal/application/usecases/delete_network.go:322-393 | exactly the listed, readable ifcfg-multinic files whose HWADDR is no active MAC address ignoring case, in listing order |
| Cleanup.ExecuteIfcfgCleanup | internal/application/usecases/delete_network.go:117-169 | removes precisely the orphans whose removal works; every orphan counts as deleted, errors stay empty; nothing happens when directory or rows cannot be read |
| Cleanup.CleanupIsExact | internal/application/usecases/delete_network.go:322-393 | with working removals a file stays, unchanged, exactly when it is not an orphan |
| Foreign.CleanupRemovesExactly | internal/application/usecases/delete_network.go:287-382 | a file is removed exactly if its name starts with ifcfg-multinic, it can be read and removed, and its HWADDR is there and not active |
| Foreign.CleanupKeepsForeign | internal/application/usecases/delete_network.go:285-288 | files whose names do not start with ifcfg-multinic stay as they are, whatever is unreadable, active or cannot be removed |
| Foreign.CycleKeepsForeign | cmd/agent/main.go:213-236 | such files are neither changed, removed nor created by a whole serialised cycle with any failures |
| Foreign.PoolKeepsForeign | cmd/agent/main.go:213-236 | nor in any reachable state of the worker pool |
| Foreign.RoundKeepsForeign | cmd/agent/main.go:213-236 | nor by a concurrent cycle with any number of workers |
| Foreign.UplinkSurvives | internal/application/usecases/delete_network.go:285-288 | ifcfg-eth0 survives every such cycle |
| Cleanup.CleanupTwice | internal/application/usecases/delete_network.go:117-169 | a second cleanup finds exactly the orphans whose removal failed in the first |
| Cleanup.GeneratedIsOrphanExactly | internal/application/usecases/delete_network.go:337-382 | the file just written for an active row is an orphan exactly when a line break smuggles in an inactive MAC address; never without line breaks |
| Cycle.ConfigureAll | internal/application/usecases/configure_network.go:120-151 | the serialised workers leave the state and the counters of the sequential pass |
| Cycle.ProcessNetworkConfigurations | cmd/agent/main.go:213-236 | one cycle: failure to fetch changes nothing; otherwise pass then cleanup, with processed, failed, total, deleted and error counts; a failed cleanup is one error |
| Cycle.IdlePass | internal/application/usecases/configure_network.go:497-528 | a pass counts nothing processed and nothing failed exactly when every row skips, and then it changes nothing |
| Cycle.SettledSurvives | internal/application/usecases/configure_network.go:497-528 | a row with nothing to do stays so through any other row's worker, with any failures and rollbacks |
| Cycle.WorkerSettles | internal/application/usecases/configure_network.go:497-551 | a faultless worker on a good row with a name available processes or skips, and the row has nothing to do afterwards |
| Convergence.CycleConverges | cmd/agent/main.go:213-236 | from a ready node where no name is stolen, after one faultless cycle every row skips and no file is an orphan |
| Convergence.SecondCycleDoesNothing | cmd/agent/main.go:213-236 | the next cycle, in any row order, processes 0, fails 0, deletes 0 and leaves files, devices and statuses as they are |
| Stealing.SkippedExactly | internal/application/usecases/configure_network.go:540-551 | until a row is skipped without its device's name, the next row is if and only if it is exposed in the node before the cycle |
| Stealing.StolenExactly | internal/domain/services/interface_naming.go:36-72 | a name is stolen during the cycle exactly when the node before it has an exposed row and a later row without a name |
| Stealing.CycleConvergesExactly | cmd/agent/main.go:213-236 | when no MAC address owns two slots' files, a faultless serialised cycle converges if and only if the node before it is not at risk in that sense |
| Stealing.SafeCycleConverges | cmd/agent/main.go:213-236 | without that condition on files, a node not at risk settles and the next cycle counts and changes nothing |
| Resting.CycleKeepsReady | cmd/agent/main.go:213-236 | a node that is ready before a faultless serialised cycle is ready after it |
| Resting.CycleRestsOrNames | cmd/agent/main.go:213-236 | such a cycle ends quiet or leaves strictly fewer devices without a name |
| Resting.CyclesComeToRest | cmd/agent/main.go:190-275 | from any ready node, at risk or not, more faultless serialised cycles than there are devices without a name leave nothing to do |
| Resting.RebootThenRest | cmd/agent/main.go:190-275 | so they do after any run of concurrent cycles with faults followed by a reboot that gives the devices any other distinct names |
| Convergence.PendingRowsConverge | cmd/agent/main.go:213-236 | convergence without further condition when the rows whose devices have no name are pending |
| Convergence.LostSlotIsStolen | internal/application/usecases/configure_network.go:540-551 | of two rows whose devices lost their names the configured one is skipped for its old file and the other overwrites it |
| Convergence.SkipSurvivesCleanupExactly | cmd/agent/main.go:223-236 | a row with nothing to do stays so through the cleanup exactly when its file is no orphan |
| Disagreement.ReadersDisagree | internal/application/usecases/delete_network.go:306-316 | on the generated file below one more HWADDR line the drift check is content and the cleanup reads the other address |
| Disagreement.SkippedRowLosesFile | cmd/agent/main.go:218-236 | for such a file with an inactive address the row is skipped, the file is an orphan, and after the cleanup the row is no longer skipped |
| Convergence.FailureIsRetried | internal/application/usecases/configure_network.go:549-549 | a recorded failure survives the rest of the cycle and its cleanup; in the next cycle, in any order and with any faults, the row is not skipped |
| RetryRuns.ConcurrentFailureIsRetried | internal/application/usecases/configure_network.go:519-524 | a failure recorded in a concurrent cycle is not skipped in the next one, with any number of workers, any interleavings and any other failures in both |
| NetplanRetryRuns.NetplanConcurrentFailureIsRetried | internal/application/usecases/configure_network.go:554-568 | the same on the Netplan path, with any listings |
| Recovery.SlotsSuffice | internal/domain/services/interface_naming.go:36-72 | taking a free name leaves enough names for the rows whose devices have none |
| Recovery.AdvanceKeepsSound | internal/application/usecases/configure_network.go:497-528 | one small step of a worker keeps the run invariant (distinct names, one device per row, enough free names, coherent files, configured rows' devices named) whatever fails in it, cut-off writes included |
| Recovery.AdvanceKeepsStanding | internal/application/usecases/configure_network.go:113-145 | one small step of a worker keeps what every other worker has found or achieved on its device |
| Recovery.StepKeepsSound | internal/application/usecases/configure_network.go:113-145 | the invariant is kept by every step of the pool, with any number of workers at once |
| Recovery.HistoryKeepsSound | cmd/agent/main.go:190-275 | the invariant holds after every run of cycles: any concurrency, any interleaving, any failures in workers and cleanups, any cycle cut short |
| Recovery.RecoversFromFaults | cmd/agent/main.go:190-275 | after any such run one faultless serialised cycle leaves a quiet node |
| Settling.RoundGains | internal/application/usecases/configure_network.go:113-151 | a faultless concurrent cycle takes no name away and, if a device is without one, gives at least one device its name |
| Settling.NamedRoundIsQuiet | internal/application/usecases/configure_network.go:113-151 | when every row's device has its name, a faultless concurrent cycle leaves nothing to do |
| Settling.ConcurrentCyclesSettle | cmd/agent/main.go:190-275 | more faultless concurrent cycles than there are devices without a name leave nothing to do |
| Settling.ConcurrentRecovery | cmd/agent/main.go:190-275 | they do so after any run of concurrent cycles with faults |
| Pool.RunAccounts | internal/application/usecases/configure_network.go:107-145 | in every reachable pool at most max(1, maxConcurrentTasks) workers hold the semaphore, counters equal finished workers by kind, nobody enters twice |
| Pool.AtMostSoMany | internal/application/usecases/configure_network.go:108-117 | in figures: never more workers inside than maxConcurrentTasks, or one if that is not positive |
| Pool.SoManyAtOnce | internal/application/usecases/configure_network.go:108-127 | that many can be inside at once if there are enough rows |
| Pool.FinalAccount | internal/application/usecases/configure_network.go:144-151 | when the wait returns, processed + failed + skipped = total and each worker got the semaphore exactly once |
| Pool.NoDeadlock | internal/application/usecases/configure_network.go:121-142 | in every reachable pool some worker can move unless all have finished |
| Pool.EveryRunIsBounded | internal/application/usecases/configure_network.go:121-145 | no run makes more than eleven moves per row |
| Pool.CanFinish | internal/application/usecases/configure_network.go:144-145 | every reachable pool can be run on until the wait returns |
| Serial.CompleteIsWorker | internal/application/usecases/configure_network.go:497-528 | the small steps of a worker, undisturbed, add up to the worker |
| Serial.AdvanceKeepsAgreement | internal/application/usecases/configure_network.go:200-247 | one small step of a worker, rollback included, keeps another finished row's device name and file |
| Serial.SerialWorkersAgree | internal/application/usecases/configure_network.go:113-145 | with capacity 1, in every interleaving and with any failures, finished successful workers hold distinct names, and their devices and files are still theirs |
| Interleaving.SerialPoolIsPass | internal/application/usecases/configure_network.go:113-151 | with capacity 1 node, counters and every outcome are those of the sequential pass in the order of the semaphore, a permutation of the rows |
| Interleaving.SerialPoolConverges | internal/application/usecases/configure_network.go:113-151 | convergence of the cycle carries over to the serialised pool |
| Interleaving.EveryInterleavingConverges | internal/application/usecases/configure_network.go:113-151 | when rows without a name are pending, every interleaving converges |
| Collision.RunAlone | internal/application/usecases/configure_network.go:123-141 | scheduling one worker alone takes it to the end it would reach by itself |
| Collision.LoserRemovesFile | internal/infrastructure/network/rhel_adapter.go:183-200 | the worker that finds its name taken fails and removes the other row's file, changing no device |
| Collision.TwoWorkersCollide | internal/domain/services/interface_naming.go:54-72 | with capacity 2 or more, any two rows without a name of which the first needs processing can get one name in a complete run; the first ends recorded as configured, with the name and without its file, the second as failed |
| Collision.BothFail | internal/application/usecases/configure_network.go:215-228 | two rows without a name can both fail although no command does, when the second's rollback comes before the first one's validation; both are pending again |
| Collision.NobodyRobbed | internal/application/usecases/configure_network.go:113-145 | with at most one row without a name no worker that finished successfully loses name or file in any reachable pool: any capacity, any interleaving, any failures but of MAC queries |
| Collision.CollisionExactly | internal/application/usecases/configure_network.go:107-145 | with capacity 2 or more and no failures, some complete run leaves a successful row without name or file if and only if at least two rows are without a name |
| Cidr.IpRoundTrip | internal/application/usecases/configure_network.go:318-321 | printing then parsing an IPv4 address gives it back |
| Cidr.IpCanonical | internal/application/usecases/configure_network.go:318-321 | only canonical dotted decimal is accepted: parsing then printing gives the text back |
| Cidr.CidrExactly | internal/application/usecases/configure_network.go:318-321 | CIDR text is accepted, and read as an address and a length, exactly if it is the canonical address, a slash, and digits of a value up to 32, leading zeros allowed |
| Cidr.NetworkIsBlockStart | internal/application/usecases/configure_network.go:318-321 | octet-wise masking is rounding the 32-bit address down to a multiple of 2^(32-n) |
| Netplan.GenerateNetplanConfig | internal/infrastructure/network/netplan_adapter.go:156-195 | filling in the entry step by step yields the row's document |
| NetplanEdits.GeneratedEntry | internal/infrastructure/network/netplan_adapter.go:156-195 | the document has one entry, under the interface's own name, matching the row's MAC address and setting that name, with address, prefix and MTU only for an address with a CIDR of one '/' |
| Netplan.Applied | internal/infrastructure/network/netplan_adapter.go:79-88 | applying the row's own document gives the row's first device the slot's name unless that is taken |
| Netplan.ExtractNetplanConfig | internal/application/usecases/configure_network.go:308-332 | the loop takes the first entry only, its address re-derived from CIDR notation or raw when that fails |
| Netplan.NetplanFixedPointExactly | internal/application/usecases/configure_network.go:335-340 | for rows without IPv6: a fresh document is not drifted if and only if address and CIDR are empty and MTU is 0, or MTU >= 0 and the row is a canonical address with its masked network |
| NetplanEdits.AddressedEntry | internal/application/usecases/configure_network.go:308-340 | a document whose first entry has an address in CIDR notation suits exactly the row with that address, its network, that MTU and that MAC address |
| NetplanEdits.BareEntry | internal/application/usecases/configure_network.go:308-340 | one without addresses suits exactly the row without address and CIDR, with that MTU and MAC address |
| NetplanEdits.OddEntry | internal/application/usecases/configure_network.go:322-326 | one whose address is no CIDR notation suits exactly the row with that very text and no CIDR |
| NetplanEdits.EmptyDocument | internal/application/usecases/configure_network.go:308-340 | a document without entries suits exactly the row with no MAC address, no address, no CIDR and MTU 0 |
| NetplanEdits.UnparsableDrifts | internal/application/usecases/configure_network.go:267-271 | a document that does not parse suits no row |
| NetplanEdits.NetEditsAreSeen | internal/application/usecases/configure_network.go:276-340 | the document of a row with a canonical address and its network suits another row if and only if MAC address, address, CIDR and MTU are the same |
| NetplanEdits.NetBareEditsAreSeen | internal/application/usecases/configure_network.go:276-340 | the document of a row without address, CIDR and MTU suits exactly such rows with the same MAC address |
| Netplan.HostBitsDrift | internal/application/usecases/configure_network.go:335-340 | a row whose CIDR repeats its own address is stable exactly when that address is its own network and MTU >= 0 |
| Netplan.Configure | internal/infrastructure/network/netplan_adapter.go:46-89 | the whole new state and result for every combination of failures, the adapter's own removals included |
| Netplan.Rollback | internal/infrastructure/network/netplan_adapter.go:109-129 | removes the derived file if present; fails when the removal or the re-apply does |
| Netplan.ProcessInterface | internal/application/usecases/configure_network.go:155-228 | configure, validate and record with rollbacks as one state change |
| Netplan.FindNetplanFileForInterface | internal/application/usecases/configure_network.go:478-494 | the first listed YAML file whose name contains the interface name |
| Netplan.CheckNetplanNeedProcessing | internal/application/usecases/configure_network.go:554-570 | decides on the first listed file that bears the name, or the row's own, as `NetplanEdits.NetWorkerSkipsExactly` spells out |
| Netplan.ProcessInterfaceWithCheck | internal/application/usecases/configure_network.go:497-569 | the whole worker on the Netplan path as one state change with its outcome |
| NetplanEdits.NetWorkerSkipsExactly | internal/application/usecases/configure_network.go:554-569 | a worker skips if and only if it is given that name, the file it finds is there, readable and not drifted, and the row is not pending |
| NetplanEdits.NetInvalidRowTouchesNothing | internal/application/usecases/configure_network.go:158-163 | a row that does not pass validation is never processed, and its worker changes neither devices nor files |
| NetplanEdits.NetEditedRowIsProcessed | internal/application/usecases/configure_network.go:554-569 | a row edited since its document was written is processed by the next faultless worker, which leaves the document of the edited row and nothing to do |
| NetplanEdits.NetEditTakesEffect | internal/application/usecases/configure_network.go:497-569 | an edit takes effect within one pass, whatever fails in the workers of other rows |
| NetplanRetry.InstallExactly | internal/infrastructure/network/netplan_adapter.go:46-129 | an attempt succeeds exactly if write, try, apply and the check of the link work; for every other combination of failures, what exactly is left of the file and of the device's name |
| NetplanRetry.NetForgottenExactly | internal/application/usecases/configure_network.go:519-524 | a failed attempt is skipped next time if and only if the failure was not stored, the row was stored as configured before, and the attempt left a suitable document under the name given next |
| Netplan.NetplanRollbackEffect | internal/application/usecases/configure_network.go:200-247 | after any failure in Configure or Validate with the removal working, the file is gone and all others are as before |
| Netplan.NetplanRollbackTwice | internal/infrastructure/network/netplan_adapter.go:109-129 | rolling back twice leaves the files of rolling back once |
| Netplan.NetplanFailureIsRetried | internal/application/usecases/configure_network.go:554-568 | a stored failure is not skipped by any later worker for the row |
| Netplan.NetplanConservesDevices | internal/infrastructure/network/netplan_adapter.go:79-88 | no MAC address is lost, and only the row's first device may be renamed, to its name |
| NetplanCleanup.ExtractInterfaceNameFromFile | internal/application/usecases/delete_network.go:239-262 | the first dash-separated part that starts with multinic; the final fallback of the source never decides |
| NetplanCleanup.FindOrphanedNetplanFiles | internal/application/usecases/delete_network.go:172-229 | exactly the readable multinic files with a MAC address that is not active ignoring case, in listing order |
| NetplanForeign.OrphanExactly | internal/application/usecases/delete_network.go:199-235 | the orphans in terms of names: `9` first, `multinic` and a dash inside, `.yaml` at the end, readable, with a MAC address that is not active |
| NetplanForeign.DocumentMacExactly | internal/application/usecases/delete_network.go:419-425 | the MAC address of a document is the first that is not empty |
| NetplanCleanup.ExecuteNetplanCleanup | internal/application/usecases/delete_network.go:77-114 | what goes is the file that each orphan's name leads to, unless its removal fails; reported as deleted are, in order, the names of the orphans whose removal and re-apply worked; deleted and errors add up to the orphans |
| NetplanForeign.CleanupKeepsOthers | internal/application/usecases/delete_network.go:98-111 | a cleanup removes no file but `90-.yaml` and files that start with `9`, contain `-multinic` and end in `.yaml` |
| NetplanForeign.PassKeepsOthers | internal/application/usecases/configure_network.go:120-145 | nor does a pass write or remove any other, whatever fails |
| NetplanForeign.UplinkSurvives | internal/application/usecases/delete_network.go:232-236 | 50-cloud-init.yaml survives every cycle |
| NetplanForeign.NamelessOrphan | internal/application/usecases/delete_network.go:239-262 | an orphan makes the cleanup aim at `90-.yaml` exactly if none of its parts between dashes starts with `multinic` |
| NetplanForeign.NamelessForm | internal/application/usecases/delete_network.go:239-262 | such names |
| NetplanForeign.FirstPartIsTarget | internal/application/usecases/delete_network.go:239-262 | of several parts that start with `multinic` the first is the interface whose file is removed |
| NetplanForeign.NumberedForm | internal/infrastructure/network/netplan_adapter.go:198-207 | an interface numbered in plain decimal, of any number of digits, has that number behind the 9 of its file's name |
| NetplanForeign.UnnumberedForm | internal/infrastructure/network/netplan_adapter.go:198-207 | one whose name goes on without a sign and not in digits only has a 0 there |
| NetplanCleanup.NetplanCleanupExactly | internal/application/usecases/delete_network.go:98-111 | the cleanup removes the orphans and nothing else if and only if every orphan bears the name that Configure gives to its interface |
| NetplanCleanup.CanonicalTarget | internal/application/usecases/delete_network.go:239-262 | from a name that Configure writes, extraction and rollback lead back to that very file |
| NetplanCleanup.CanonicalCleanupIsExact | internal/application/usecases/delete_network.go:98-111 | in a directory of canonical names exactly the orphans are removed |
| NetplanCleanup.GeneratedIsNoOrphan | internal/application/usecases/delete_network.go:193-225 | a document just written for an active row is never an orphan |
| NetplanCleanup.RenumberedFileMisdirects | internal/application/usecases/delete_network.go:98-111 | an orphan numbered otherwise than its name makes the cleanup aim at the canonical file instead |
| NetplanConvergence.ListingIrrelevant | internal/application/usecases/configure_network.go:478-494 | in a tidy directory the worker does the same for any two listings |
| NetplanConvergence.NetHistoryKeepsSound | cmd/agent/main.go:190-275 | the Netplan run invariant holds after every run of serialised cycles, with any listings, any failures and any removals by cleanups |
| NetplanConvergence.NetSettledSurvives | internal/application/usecases/configure_network.go:497-528 | a settled row stays settled through any other row's worker on the Netplan path |
| NetplanConvergence.NetplanCycleConverges | cmd/agent/main.go:213-236 | one faultless serialised Netplan cycle from a sound node, each worker listing the directory as it is, leaves nothing to do however it is listed next |
| NetplanConvergence.NetQuietCycle | cmd/agent/main.go:213-236 | the next cycle, in any row order and with any listings of the directory, skips every row, deletes nothing and changes nothing |
| NetplanConvergence.NetplanRecoversFromFaults | cmd/agent/main.go:190-275 | so does one after any run with faults |
| NetplanTurns.TurnIsWorker | internal/application/usecases/configure_network.go:497-569 | in a tidy directory the faultless worker does what the listing-free description of a turn says |
| NetplanTurns.CycleIsTurns | cmd/agent/main.go:213-236 | the faultless cycle, over any listings of the directory, is the turns of the rows and the removal of the orphans |
| NetplanStealing.NetSkippedExactly | internal/application/usecases/configure_network.go:554-568 | until a row is skipped without its name, the next row is if and only if it is exposed in the node before the cycle |
| NetplanStealing.NetStolenExactly | internal/domain/services/interface_naming.go:36-72 | a name is stolen during the Netplan cycle exactly when the node before it has an exposed row and a later row without a name |
| NetplanStealing.NetCycleConvergesExactly | cmd/agent/main.go:213-236 | when no row's MAC address has two slots' files, a faultless serialised Netplan cycle converges if and only if the node before it is not at risk in that sense |
| NetplanStealing.NetSafeCycleConverges | cmd/agent/main.go:213-236 | without that condition on files, a node not at risk settles |
| NetplanResting.NetCycleRestsOrNames | cmd/agent/main.go:213-236 | a faultless serialised Netplan cycle ends quiet or leaves strictly fewer devices without a name |
| NetplanResting.NetCyclesComeToRest | cmd/agent/main.go:190-275 | more such cycles than there are devices without a name leave nothing to do |
| NetplanPool.FinishIsWorker | internal/application/usecases/configure_network.go:497-569 | the small steps of a Netplan worker, undisturbed, add up to the worker |
| NetplanPool.MoveKeepsBase | internal/application/usecases/configure_network.go:113-145 | any step of any Netplan worker, whatever fails in it, keeps what the convergence theorems need of the node |
| NetplanPool.CrewHistoryKeepsBase | cmd/agent/main.go:190-275 | so does every run of concurrent cycles, with any interleaving, any failures, any removals by cleanups and any cycle cut short |
| NetplanPool.NetplanConcurrentRecovery | cmd/agent/main.go:190-275 | after any such run more faultless serialised cycles than there are devices without a name leave nothing to do |
| NetplanLosses.FindsFirstBearing | internal/application/usecases/configure_network.go:478-494 | on the sorted listing of a directory the drift check finds exactly the first file whose name contains the interface name |
| NetplanLosses.SomeFileBears | internal/application/usecases/configure_network.go:478-494 | after a success some file of the directory is the first that bears the name |
| NetplanLosses.NextSkipsExactly | internal/application/usecases/configure_network.go:554-568 | after a success the next faultless worker under that name skips if and only if the first file that bears it is the row's own or suits the row |
| NetplanLosses.ShadowedRowNeverSettles | internal/application/usecases/configure_network.go:554-568 | a row with a differing file ahead of its own is processed by every worker that can list the directory, and stays so, whatever else works or fails |
| NetplanLosses.UnlistedChecksOwnFile | internal/application/usecases/configure_network.go:478-494 | a worker that cannot list the directory checks the row's own file instead, and skips exactly if that suits a configured row |
| NetplanLosses.OldFileShadows | internal/infrastructure/adapters/filesystem.go:50-64 | `00-multinicK.yaml` comes ahead of the name that Configure gives, bears the interface name, and no cleanup considers it |
| NetplanLosses.ShadowedDirectory | internal/application/usecases/configure_network.go:554-568 | a directory holding only that file, with any differing content, and the row's own file shadows the row |
| NetplanLosses.TakenNamePasses | internal/infrastructure/network/netplan_adapter.go:46-106 | a faultless attempt succeeds and is recorded whatever has become of its name; the device has the name afterwards exactly if it was its own or free |
| NetplanLosses.OneNameForTwo | internal/domain/services/interface_naming.go:54-72 | two rows without names are given the same one; attempted one after the other both succeed and are recorded, the first keeps the name and loses its document to the second |
| NetplanCollision.TwoCrewCollide | internal/application/usecases/configure_network.go:113-145 | of any two rows without a name, the first of which needs processing, there is an interleaving of two workers in which that happens |
| NetplanLosses.NetLostSlotIsStolen | internal/application/usecases/configure_network.go:554-568 | of two rows whose devices lost their names the configured one is skipped for its old file and the other takes name and file |
| Polling.ExponentialBackoff.NextInterval | internal/application/polling/strategy.go:50-81 | the counter is the length of the current failure run, and the interval a function of it alone |
| Polling.Start | internal/application/polling/strategy.go:183-210 | the intervals set are those of the outcome history up to the first that is not positive, and the loop panics exactly when there is one |
| Polling.BackoffIsIdeal | internal/application/polling/strategy.go:66-72 | the interval is min(max, floor(base*m^(k-1))) exactly while that product is below 2^63; after a failure it never exceeds the maximum |
| Polling.IdealMonotone | internal/application/polling/strategy.go:66-72 | more failures never give a shorter ideal interval |
| Polling.IdealReachesMax | internal/application/polling/strategy.go:66-72 | the maximum is reached after finitely many failures and kept |
| Polling.PositiveExactly | internal/application/polling/strategy.go:66-72 | with positive base and maximum the interval is positive exactly while base*m^(k-1) < 2^63 |
| Polling.OverflowCount | internal/application/polling/strategy.go:66-72 | there is a failure count from which on, and only from which on, no interval is positive |
| Polling.DefaultsOverflow | internal/application/polling/strategy.go:66-72 | for 30s, 300s and factor 2 that count is 30 |
| Polling.DefaultsSurvive | internal/application/polling/strategy.go:189-203 | with the defaults every interval of a history is positive exactly when it never has 30 failures in a row |
| Polling.AdaptiveStrategy.NextInterval | internal/application/polling/strategy.go:121-158 | the three fields after a call are a function of the three before and the outcome |
| Polling.BoundsExactly | internal/application/polling/strategy.go:121-158 | all intervals of all histories lie between the smaller of min and idle and the larger of max and idle if and only if none of the first 187 slowing steps from min and from idle leaves the 64-bit range |
| Polling.RangeIsCheckable | internal/application/polling/strategy.go:137-142 | checking that many steps is checking all: by then the interval has reached the maximum, the range or a standstill |
| Polling.ShortMaximumIsSafe | internal/application/polling/strategy.go:137-142 | they do whenever 1.5*max <= 2^63 |
| Polling.LongMaximumOverflows | internal/application/polling/strategy.go:137-142 | limits for which they do not |
| Polling.IdleRun | internal/application/polling/strategy.go:132-155 | k calls without work from a reset: min for k < 5, then k-4 slowing steps up to k = 14, then idle |
| Polling.QuietAfterWork | internal/application/polling/strategy.go:132-155 | after any history that ends in work, k calls without work keep the interval for k < 5, then make k-4 slowing steps from it up to k = 14, then idle |
| Polling.OneWorkKeepsInterval | internal/application/polling/strategy.go:122-130 | after any quiet history a single call with work leaves the interval alone |
| Polling.TwoWorksRestoreMin | internal/application/polling/strategy.go:122-130 | two calls with work in a row restore min after any history |
| Example.FreshNetplanNodeIsSound | cmd/agent/main.go:190-275 | the hypotheses of recovery on the Netplan path hold on a concrete node with an empty directory |
| Example.FreshNodeRecovers | cmd/agent/main.go:190-275 | a concrete node with two new rows: the hypotheses of recovery hold, so it recovers from any history |
| Example.FreshNodeConverges | cmd/agent/main.go:213-236 | on that node a cycle converges in every interleaving of serialised workers |
| Example.FreshNodeCollides | internal/application/usecases/configure_network.go:113-145 | on that node two workers at once can end with a row recorded as configured and no file for it |
| Example.FreshNodeSettles | cmd/agent/main.go:190-275 | on that node three faultless concurrent cycles leave nothing to do |
| Example.DoubtfulNodeLosesFile | cmd/agent/main.go:213-236 | a concrete node, ready but for a file with two HWADDR lines, on which the cycle skips the row and deletes its file |
| Example.RebootedNodeLosesFile | internal/application/usecases/configure_network.go:540-551 | a concrete ready node on which a cycle does not converge |

## Left out

- Rhel.Configure: link state (down, up) is not part of the device table; a failed `down` or `up` only decides the result.
- Rhel.Rollback: the restart of NetworkManager has no effect on the three maps, and its failure is ignored as in the source.
- Rhel.FindDevice: devices whose printed name differs from their name (`name@parent`) are outside the table that is rendered, though the scanner itself is proved on any rendering with well-formed names.
- Naming.GenerateNextNameForMAC: the regular expression on `ip addr show` is a lookup in the device table, with a set of slots whose lookup fails; in the pool the whole search is one step, so a search that sees two different tables is not modelled.
- Pool.RunAccounts: counting and releasing the semaphore are one step, and so are the three link commands of a rename; the 32-bit width of the counters is not modelled.
- Entities.Fetch: a row whose columns cannot be scanned is dropped by the source; here it is simply not in the table.
- Cycle.ConfigureAll: the workers run one after the other; any number of them at once, in any interleaving, is the subject of `Pool`, `Collision`, `Recovery` and `Settling`.
- Cycle.ProcessNetworkConfigurations: the configure half is the serialised pass, and both use cases see the same rows; in the source one asks for the operating system's host name and the other for the output of `hostname`, both cut at the first dot. Health counters and metrics are left out.
- Recovery.RecoversFromFaults: devices do not lose their names between these cycles; a reboot after the run is `Resting.RebootThenRest`. The static columns of the rows do not change during the run.
- Stealing.CycleConvergesExactly: for a MAC address that owns two slots' files only the direction of `Stealing.SafeCycleConverges` is stated, and what `Resting.CyclesComeToRest` says of several cycles. The same holds of NetplanStealing.NetCycleConvergesExactly.
- NetplanConvergence.NetplanRecoversFromFaults: serialised cycles only, since with several workers at once a configured row's device can be left without its name (`NetplanCollision.TwoCrewCollide`); runs of concurrent cycles are `NetplanPool.NetplanConcurrentRecovery`.
- NetplanPool.NetplanConcurrentRecovery: the cycles that bring rest are serialised; that faultless concurrent ones do is stated for RHEL only.
- Netplan.GenerateNetplanConfig: the document's `version` and `dhcp4` keys, which no reader reads, are not in the datatype.
- Netplan.Configure: marshalling is taken to round-trip; a `netplan apply` that works renames the first device of the MAC address and does nothing about other files, one that fails changes no device.
- Netplan.Rollback: the apply after a removal renames nothing.
- Netplan.NetplanFixedPointExactly: rows with a ':' in the address (IPv6) are not covered.
- Polling.ExponentialBackoff.NextInterval: floating-point values are exact reals; rounding of `math.Pow` is not modelled.
- Polling.Start: the loop is proved for the exponential strategy; the fixed-interval one of the main program is constant.
- Text: letter case is folded for ASCII only, where Go folds all of Unicode; the 64 KiB line limit of `bufio.Scanner` is not modelled.
- SQL text, NULL columns, row scanning and connection handling of the repository, and its queries that no use case calls.
- Process execution, nsenter, timeouts and contexts: a command is an outcome with its effect on the maps.
- Logging, metrics, health endpoint, configuration, dependency container and OS detection.
- `GetCurrentMultinicInterfaces`, `MarkAsConfigured` and `MarkAsFailed`, which no modelled path calls.
