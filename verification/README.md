# Verification of ptrbox

A Dafny model of ptrbox's stateful parts, with proofs about it. ptrbox runs coding agents in
sandbox VMs whose only way out is a shared squid proxy VM; what a sandbox may reach is a list
of domains per VM, kept on the host and pushed into the proxy. `dafny verify dfyconfig.toml`
checks everything.

## What is modelled

**Allowlists.** A list is text: domains, comments, and groups between `# @requires` and `#
@end`. `Allowlist` has the program's own scans (`SeedFor`, `TemplateGroups`, `Reconcile`) as
loops proved equal to functions on lines; `AllowlistDocs` sees the same texts as documents of
plain lines and blocks, `AllowlistViews` any list as what findGroup shows of it.
`AllowlistMarkers` says how a marker may be written. `AllowlistSeeds`, `AllowlistAccounting`,
`AllowlistReports`, `AllowlistUnclosed`, `AllowlistPaths`, `AllowlistIdempotence` and
`AllowlistReseeds` prove what a seed holds, what a pass may change and what it says of it, that
reconciling along any path ends where a fresh seed would, in its entries and line by line, and
when a second pass changes nothing (`AllowlistSettling` is the one half of that,
`AllowlistTraps` the other). Three of these hold only for some templates, and the exact
templates are proved, labels repeated or not. Path independence in entries needs a group that
repeats an earlier label to have no entries; line by line it needs the first group of a label
to be entries and nothing else but possibly its own note. Idempotence needs a label without
entries to hold only notes; and where a domain belongs to two labels and one can be wanted
without the other, a group of the other must come before the last group of the one that asks
for it. `Domains` is `ptrbox allow` adding names to a list.

**Ports and access rules.** `Ports` is the ledger of sidecar files, a directory updated in
place by the class `GeneratedDir`. `Squid` generates the access rules, reads them back
directive by directive, and decides requests first match first, between an arbitrary deny-only
prefix and an arbitrary suffix.

**Sync.** The class `Proxy` is the proxy VM and the host files pushed into it. Its files are a
map from path to text; squid's parser is an uninterpreted predicate on a config and the files
beside it. Every call into the VM may fail, having taken effect or not. A read that fails looks
like a file that is not there, as in the program; the ghost field `honest` records that no read
of an existing file has failed, and exact rollback is promised under it. `trace` records every
state the files went through. The ghost field `loaded` is what squid last loaded, and `Live`
says that it runs on what is on the disk. A sync without error leaves it so exactly when it
reloaded or squid was there before: a sync that finds nothing to push compares the disk only,
and promises nothing about a squid whose last reload failed. That is a real limit of the
program, and `FailedReloadGoesUnnoticed` is the run. `Served` joins the two halves: what squid
answers from the files it has loaded, while a sync has left the disk in place and `Live` holds.
`Allow` is the command around it. The constants `steady`, `reloads`, `stuck` and `sure` fix
which calls can fail, so that a run in which all but one succeed can be stated, and what a
sync still does when others fail; nothing is assumed of them elsewhere. One rejection is not
rolled back: when the candidate squid refused cannot be removed, the sync ends there
(`RefusedFilesStay`).

**Commands.** The class `Host` holds the backend's VMs, the generated directory and the proxy;
`new`, `start`, `shell`, `stop`, `rm` and `install` are methods in which any step may fail and
any listing may come back empty. `watch` is updated at every call that moves a VM and at every
config written: it says that at no moment so far did a sandbox ptrbox created, or one that is
registered, run without the proxy. Two things the program is told by an empty listing make
that false, and nothing else does. `misled`: an `rm` was told that a sandbox ptrbox created is
not there. It then removes the config of a running sandbox, the idle check no longer counts
it, and the proxy goes down under it (`MisledRmStrands`); coverage survives every further run
exactly when every created sandbox still has its config (`StaysCovered`, `Strand`). `adopted`:
a `new` was told that a running VM without a config is not there, with the proxy down. It then
registers that VM before it brings the proxy up (`MisledNewAdopts`). `guests` is what runs inside
a VM, set by its boots and read only by the verification; the token is proved to be in no VM
whose check does not pass. `steps` is what a command has done that leaves no other trace.

**Settings.** `ShellConf` is the parser of the settings file and `ShellConfLaws` what it reads,
form by form. `Merge` carries settings into a newer file, `MergePlaces` says where each line
goes, and `MergeWords`, which follows values as words over characters and environment names,
exactly which merges keep what the file sets in every environment.

**Streams.** `Narrate` and `Logs` are the two consumers of byte streams; `LogFields` parses
log lines, `LogFieldsLaws` says exactly which, and `LogQuotes` writes out the printer on the
other side.

Functions are specifications; each loop of the program is a method proved against one. Foreign
calls are nondeterministic choices.

Where the code and its comments differ, the code is followed: the merge's comment says a key
with nowhere to go is not dropped, but the lines it comments out are comments to the next
update, which drops them (`UpdatingTwiceExactly`); `FreshListExactly` and `IdempotentExactly`
say when "nothing to do" is true of a re-create; and "serves the current config", said of a
proxy that is ensured, is true of its disk (`FailedReloadGoesUnnoticed`).

## Model

| member | source | states |
|---|---|---|
| Allowlist.LocateGroup | internal/proxy/reconcile.go:242-260 | the loop finds the first marker of a label and, if the next marker is an end, that end; -1 for what is missing |
| Allowlist.FindGroupIs | internal/proxy/reconcile.go:242-260 | whatever comes after the next marker, the answer is decided by the first marker of that label and the one following it |
| Allowlist.ListEntries | internal/proxy/reconcile.go:262-270 | the entries of some lines, in order |
| Allowlist.SeedFor | internal/proxy/vmaccess.go:127-188 | the scan accepts or refuses a template for the first reason met, and its output is the template with each unwanted group emptied down to its note |
| Allowlist.TemplateGroups | internal/proxy/reconcile.go:99-135 | the scan returns every closed group with its features and its lines, or the first structural error |
| Allowlist.Turn | internal/proxy/reconcile.go:167-236 | one turn of the loop: what becomes of the list for one group, and which changes are reported, in each of the five cases |
| Allowlist.Reconcile | internal/proxy/reconcile.go:160-238 | the whole loop equals one turn per template group in order, on the list without its trailing newlines; the report is the turns' reports in order |
| Allowlist.MissingLines | internal/proxy/reconcile.go:183-191 | the lines of a group whose domain the list does not hold anywhere |
| Allowlist.DropNotes | internal/proxy/reconcile.go:205-211 | restoring keeps a person's comments and drops only generated notes |
| Allowlist.Partition | internal/proxy/reconcile.go:217-225 | removing takes the template's entries out of a group and keeps every other line in order |
| AllowlistMarkers.MarkerReads | internal/proxy/vmaccess.go:190-204 | a marker may be spaced in any way around its hash, its directive and its argument |
| AllowlistMarkers.BareMarkerReads | internal/proxy/vmaccess.go:190-204 | and may have no argument |
| AllowlistMarkers.NoMarkerReads | internal/proxy/vmaccess.go:190-204 | nothing else is one: no line without a hash, no comment whose first character is another |
| AllowlistMarkers.UnknownIsFirst | internal/proxy/vmaccess.go:146-151 | of the features a group asks for, the first the program does not know is the one refused |
| AllowlistMarkers.NotesTell | internal/proxy/reconcile.go:144-151 | notes for different features differ, and an omitted note is never an added one |
| AllowlistAccounting.Accounting | internal/proxy/reconcile.go:160-238 | for any list and any groups: every line gained is a note or comes from a wanted group, every line lost is a note or an entry of an unwanted group; the lines that may not be lost are all there afterwards in their order, and those that may not be gained were all there before in theirs |
| AllowlistAccounting.EntriesAccounted | internal/proxy/reconcile.go:160-238 | the same for entries: a domain appears only through a wanted group and disappears only through an unwanted one |
| AllowlistAccounting.EditedMeans | internal/proxy/reconcile.go:160-238 | the step-by-step account implies the line-by-line one |
| AllowlistAccounting.EditedInOrder | internal/proxy/reconcile.go:160-238 | it also implies that what it keeps is a subsequence of the list after it, and what it finds one of the list before |
| AllowlistUnclosed.UnclosedIsUntouched | internal/proxy/reconcile.go:169-174 | a group with no end in the list keeps every line it has, and is still found without an end, whatever else a pass does |
| AllowlistReports.TurnReports | internal/proxy/reconcile.go:167-236 | a turn reports one change or none, and it is true: what an added or restored block now holds, what a removed one held and holds no more, an end that is missing; a turn that reports none shows the same block |
| AllowlistReports.TurnBalances | internal/proxy/reconcile.go:167-236 | as often as each entry occurs: those after a turn and those it reports removed are those before it and those it reports added or restored; a turn that reports nothing changes no line |
| AllowlistReports.PassBalances | internal/proxy/reconcile.go:160-238 | the report of a whole pass accounts for every entry come or gone, as often as it came or went |
| AllowlistDocs.SeedIsDoc | internal/proxy/vmaccess.go:127-188 | seeding a template is emptying the unwanted blocks of the document it parses to |
| AllowlistDocs.GroupsAreDocGroups | internal/proxy/reconcile.go:99-135 | the groups found in a template are the blocks of that document |
| AllowlistDocs.DocIsAccepted | internal/proxy/vmaccess.go:134-186 | what parses to a document has its shape: known features, closed groups, no nesting, no stray directive |
| AllowlistDocs.StepInDoc | internal/proxy/reconcile.go:167-236 | one turn rewrites the inside of the first block with that label and no other line |
| AllowlistSeeds.AcceptedExactly | internal/proxy/vmaccess.go:127-188 | a template is accepted if and only if it is the text of such a document |
| AllowlistSeeds.AcceptanceIgnoresFeatures | internal/proxy/vmaccess.go:127-188 | a template is accepted for every configuration or for none, and templateGroups then accepts it too |
| AllowlistSeeds.SeedHoldsWhatIsWanted | internal/proxy/vmaccess.go:127-188 | the seed's entries are exactly the ungrouped ones and those of wanted groups, in order; the groups found are the template's blocks |
| AllowlistSeeds.SeedIsIdempotent | internal/proxy/vmaccess.go:127-188 | seeding a seed again for the same configuration changes nothing |
| AllowlistSeeds.SeedIsMonotone | internal/proxy/vmaccess.go:127-188 | more features never take an entry away or reorder those there were |
| AllowlistPaths.PathIndependence | internal/proxy/reconcile.go:160-238 | from a seeded list, after any run of reconciles with any configurations and appended domains between, the entries are those a fresh seed for the last configuration has, then the appended ones, for templates in which a group repeating an earlier label has no entries |
| AllowlistPaths.PathIndependentExactly | internal/proxy/reconcile.go:240-260 | for an accepted template, reconciling agrees with re-seeding for every pair of configurations if and only if no group repeating an earlier label has entries |
| AllowlistPaths.ReconcileFollows | internal/proxy/reconcile.go:160-238 | after one pass a list stands to the new configuration as its seed would |
| AllowlistPaths.TwinsBreak | internal/proxy/reconcile.go:240-260 | a repeated group with entries keeps them after its feature is turned off |
| AllowlistReseeds.ReseedsExactly | internal/proxy/reconcile.go:160-238 | line by line: for an accepted template, reconciling a seed for another configuration gives the very lines of a fresh seed for it, for every two configurations, if and only if the first group of each label is entries and nothing else but possibly its own note, and a group that repeats a label is its note |
| AllowlistReseeds.NotReseeded | internal/proxy/reconcile.go:160-238 | where a group is not so, the two configurations for which the lines differ |
| AllowlistReseeds.RunsRetrace | internal/proxy/reconcile.go:65-97 | for such a template, after any run of reconciles with any configurations and appended domains the text is the header, the lines of a fresh seed for the last configuration and the appended domains, but for blank lines at the end of the template |
| AllowlistReseeds.SameDocs | internal/proxy/reconcile.go:240-260 | two lists in the shells of one template have the same lines only if every block has |
| AllowlistViews.StepViews | internal/proxy/reconcile.go:167-236 | one turn sets what findGroup shows of its own group and leaves what it shows of every other group |
| AllowlistIdempotence.PassViews | internal/proxy/reconcile.go:160-238 | with distinct labels a pass adjusts each closed group exactly once, from what it was before the pass |
| AllowlistIdempotence.IdempotentExactly | internal/proxy/reconcile.go:160-238 | for groups as an accepted template has them, labels repeated or not: a second pass changes no line, for every list and configuration, if and only if a label without entries holds only notes, and a domain of two labels of which one can be wanted alone is given up by the other before the last group asking for it has its turn |
| AllowlistSettling.PassTwice | internal/proxy/reconcile.go:160-238 | the one half, for one list and configuration: the second pass changes no line |
| AllowlistSettling.NotesAreLost | internal/proxy/reconcile.go:202-213 | of two groups of one label that hold only notes the first might as well not be there, whatever groups come between |
| AllowlistSettling.StepPast | internal/proxy/reconcile.go:167-236 | a turn does not depend on what another label's block holds, but for its entries |
| AllowlistSettling.StillHeld | internal/proxy/reconcile.go:183-191 | under that condition a domain found held by the last group asking for it is held when the pass ends |
| AllowlistTraps.CommentsRepeat | internal/proxy/reconcile.go:202-213 | a label with comments and no entries gets its comments again on every pass |
| AllowlistTraps.SharedDomainReturns | internal/proxy/reconcile.go:183-191 | a domain of two labels, one wanted and the other not, given up too late: some list and configuration change again on a second pass |
| AllowlistIdempotence.FreshSeedExactly | internal/proxy/reconcile.go:160-238 | reconciling the seed of a template's document for the same configuration is the identity on lines if and only if, for each wanted label whose first group has no entries, its groups hold only notes and the last one's are the first one's; with distinct labels: each wanted group without entries holds only notes |
| AllowlistIdempotence.FreshAt | internal/proxy/reconcile.go:160-238 | block by block: a pass leaves the first block of a label as the seed has it if and only if that label meets the condition |
| AllowlistIdempotence.FreshTextExactly | internal/proxy/reconcile.go:65-97 | and so is reconciling the whole text, header above the seed and final newlines trimmed, under the same condition |
| AllowlistIdempotence.ReconcilingTwiceIsOnce | internal/proxy/reconcile.go:65-97 | for an accepted template that meets the condition of IdempotentExactly a second pass rewrites no byte of any list |
| Domains.ScanEntries | internal/cli/allow.go:263-275 | the loop collects first fields, comments and blanks dropped: the entries reconcile sees |
| Domains.Append | internal/cli/allow.go:193-221 | one refused domain and nothing is produced; otherwise the new text, and whether anything was new |
| Domains.AppendedEntries | internal/cli/allow.go:193-221 | a valid batch extends the list's entries by exactly the domains it lacked, each once, in the order asked |
| Domains.AppendDomainAdds | internal/cli/allow.go:205-216 | one appended domain adds that entry at the end and rewrites nothing before it |
| Domains.FreshIsNew | internal/cli/allow.go:203-220 | the domains added are not held before, have no duplicates and cover everything asked |
| Domains.ValidDomainExactly | internal/cli/allow.go:239-261 | a domain is let through if and only if, split at its dots, it has two labels or more, of letters, digits and hyphens, the last not empty and the first not starting with a hyphen |
| Ports.SidecarText | internal/proxy/ports.go:53-62 | the text written for a port is read back as that port |
| Ports.NumberReads | internal/proxy/ports.go:53-62 | a number with or without a sign and with any leading zeros reads as it is written, if 64 bits hold it |
| Ports.NumberOnly | internal/proxy/ports.go:53-62 | and nothing else reads as a number |
| Ports.PortAllocations | internal/proxy/ports.go:39-65 | the loop reads the sidecars of a directory into the allocations they hold, or refuses the whole of it for a directory or sidecar it cannot read, or one that holds no number |
| Ports.LeastFree | internal/proxy/ports.go:84-97 | the lowest port of the block that nobody holds; None only when all are held |
| Ports.GeneratedDir.AllocatePort | internal/proxy/ports.go:71-98 | a VM gets the port it holds or the lowest free one, the sidecar saying so; in every other case nothing is written |
| Ports.GeneratedDir.ReleasePort | internal/proxy/ports.go:102-107 | the sidecar is gone, absent or not before, or the removal failed and nothing changed |
| Ports.AllocationKeepsLedger | internal/proxy/ports.go:71-98 | giving the least free port keeps ports different and inside the block, and changes nobody else's |
| Ports.ReleaseKeepsLedger | internal/proxy/ports.go:102-107 | a release frees exactly that VM's port |
| Ports.RefusedExactlyWhenFull | internal/proxy/ports.go:84-98 | by pigeonhole, allocation is refused if and only if sixteen VMs hold a port |
| Ports.ReachableLedger | internal/proxy/ports.go:67-107 | every directory reached by allocations, releases and other files has readable sidecars, one port per VM, all inside the block |
| Ports.RetryGetsItsPort | internal/proxy/ports.go:76-78 | a VM keeps its port over any run that does not release it, so a retried create gets the one it held |
| Squid.SortNames | internal/proxy/vmaccess.go:49-53 | each VM once, in the order of sort.Strings |
| Squid.VMAccessConf | internal/proxy/vmaccess.go:48-68 | the loop writes the header and four lines per VM in name order |
| Squid.ConfMeansRules | internal/proxy/vmaccess.go:60-66 | read back directive by directive, the text means an allow and a deny for each VM, and no VM's ACL is another's |
| Squid.Isolation | internal/proxy/vmaccess.go:48-68 | in every ledger, with deny-only rules above and any rules below: what the rules above do not deny on a VM's port is allowed if and only if it is CONNECT from a permitted source to a domain of that VM's own list |
| Squid.UnheldPort | internal/proxy/vmaccess.go:48-68 | a port nobody holds gets what the template alone says |
| Squid.NonInterference | internal/proxy/vmaccess.go:48-68 | changing any other VM's list or allocation, or the rules below, never changes a VM's verdict |
| Squid.NamesAre | internal/config/names.go:27-42 | a VM name is letters, figures and hyphens |
| Squid.FormatReadsBack | internal/proxy/vmaccess.go:60-66 | the port the config names is the one allocated, read back |
| Squid.DomainMatchesExactly | internal/cli/allow.go:44-46 | an entry serves its name, and with a leading dot every name under it as well |
| Served.AccessTextReads | internal/proxy/vmaccess.go:55-67 | squid reads from the file the very lines that were generated |
| Served.FilesAnswer | internal/proxy/proxy.go:181-195 | with everything in place in some files, the verdict computed from those files is the verdict of the ledger |
| Served.FilesIsolate | internal/proxy/proxy.go:181-195 | and on a VM's port it is that of the VM's own list |
| Served.ServedIsolation | internal/proxy/proxy.go:137-284 | end to end: while squid runs on a disk a sync left as desired, a request on a VM's port is answered from the files squid has loaded by that VM's list on the host and nothing else |
| Served.ServedUnheld | internal/proxy/proxy.go:137-284 | and on a port nobody holds by the template alone |
| Served.AddedDomainStaysRefused | internal/proxy/proxy.go:273-283 | a domain added to a list whose reload fails stays refused through the next sync, which reports nothing to do: host and disk allow it, squid does not |
| Served.AllowedDomainIsServed | internal/cli/allow.go:57-162 | end to end: a fresh valid domain allowed for a VM with a port, nothing failing and squid accepting the files, and squid lets a request to it through |
| Sync.PutAt | internal/proxy/proxy.go:234-243 | pushing files with distinct paths leaves each in place and touches no other path |
| Sync.RolledBackAt | internal/proxy/proxy.go:218-232 | rolling back puts each pushed path as it was read and touches no other |
| Sync.DesiredIsDistinct | internal/proxy/proxy.go:178-195 | no two desired files share a path and none is the config or its candidate |
| Sync.PushingIsPutting | internal/proxy/proxy.go:202-213 | pushing only the difference leaves the disk as pushing everything would |
| Sync.RollingBackUndoes | internal/proxy/proxy.go:215-232 | a push that was read honestly and rolled back leaves the disk as it was, but for a leftover candidate |
| Sync.RollingBackExactly | internal/proxy/proxy.go:68-82 | a rolled-back push leaves the disk as it was if and only if every read before it told the truth: an unreadable file is taken for absent and removed |
| Sync.Proxy.EnsureVMAllowlist | internal/proxy/vmaccess.go:75-105 | a list that is there is returned untouched; one that is not is written once, from the template and the VM's own features, under its header |
| Sync.Proxy.SeedAllowlist | internal/proxy/proxy.go:95-115 | the user's template is never overwritten; without one the shipped text is installed |
| Sync.Proxy.ReconcileVMAllowlist | internal/proxy/reconcile.go:65-97 | an existing list becomes the reconciled text for the VM's features, or nothing changes |
| Sync.Proxy.Gather | internal/proxy/proxy.go:168-195 | the desired files in push order, every allocated VM's list seeded when it is missing and no other list touched |
| Sync.Proxy.Diff | internal/proxy/proxy.go:197-213 | what has to be pushed is exactly what a read did not confirm, with what was read there |
| Sync.Proxy.PushAll | internal/proxy/proxy.go:234-243 | stopping partway leaves a prefix of the pushes done; every state on the way is such a prefix |
| Sync.Proxy.Rollback | internal/proxy/proxy.go:215-232 | whatever fails on the way, every pushed file whose own path does not fail is put back as it was read; success means all are |
| Sync.Proxy.Discard | internal/proxy/proxy.go:251-257 | a refused candidate is removed and then everything is put back; when it cannot be removed, nothing is put back |
| Sync.Proxy.Activate | internal/proxy/proxy.go:245-271 | the live config is replaced only by a candidate that parsed against the pushed files; a rejection removes it and rolls back what it can |
| Sync.Proxy.Revalidate | internal/proxy/proxy.go:273-283 | squid is told to reload only after the live config parsed against the pushed files; a rejection rolls back |
| Sync.Proxy.PushAndLoad | internal/proxy/proxy.go:234-283 | applied means pushed, parsed and loaded; rejected means rolled back; at every step the live config is the old one or one just validated |
| Sync.Proxy.Desire | internal/proxy/proxy.go:137-195 | the host half: the config rendered and the desired files gathered, missing lists seeded on the way and nothing else written |
| Sync.Proxy.Converge | internal/proxy/proxy.go:197-284 | the VM half as a transaction, from the difference to the reload |
| Sync.Proxy.Sync | internal/proxy/proxy.go:137-284 | a transaction: Unchanged wrote nothing and everything is in place; Applied equals the old disk with the desired files and config put, parsed and loaded; Rejected with honest reads is the old disk; a parsing config keeps parsing; each intermediate state is safe; a disk already right is left alone; a rejection with honest reads puts back every file whose own path does not fail, whatever else does, unless the refused candidate cannot be removed; without error squid runs on the disk afterwards if and only if it reloaded or ran on it before; when nothing but a reload can fail, disk and parser decide the outcome |
| Sync.AppliedIsInPlace | internal/proxy/proxy.go:202-283 | an applied sync has every desired file and the config in place |
| Sync.SyncTwice | internal/proxy/proxy.go:137-284 | from any disk, a first sync that completes unrejected leaves the desired state; with honest reads an immediate second one returns Unchanged and writes nothing |
| Sync.FailedReloadGoesUnnoticed | internal/proxy/proxy.go:203-284 | the run in which squid does not run on the disk: a reload fails after a push that parsed, and the next sync, which compares the disk only, returns Unchanged without error |
| Sync.RefusedFilesStay | internal/proxy/proxy.go:251-257 | the run in which a rejection is not rolled back: squid refuses a new config, the candidate cannot be removed, and the files it was refused with stay |
| Allow.AllowCommand.Edit | internal/cli/allow.go:126-134 | which outcome the edit has, and the list after it: the old text extended by exactly the new domains, or what the editor left; unchanged when the batch is refused or nothing is new |
| Allow.AllowCommand.Change | internal/cli/allow.go:118-134 | the list is seeded on its first touch and then edited |
| Allow.AllowCommand.Apply | internal/cli/allow.go:136-161 | refused by squid: host list and VM as before, refused text kept; reloaded: the VM's disk holds the host's list, and squid has loaded it if it ran on the disk before; down: only the host is edited; and when no call fails it is reloaded if and only if the wanted files are in place or parse, and refused otherwise |
| Allow.AllowCommand.Restore | internal/cli/allow.go:146-160 | the refused text is kept beside the list and the list is as it was; a restore that fails leaves the text where it was or where it is kept |
| Allow.AllowCommand.Allow | internal/cli/allow.go:57-162 | the whole command is atomic across host and VM, starts from the VM's list or a fresh seed, and touches no other VM's list but to seed a missing one; each outcome happens exactly when it should: declined, a bad domain, nothing new, a failed editor, saved for a proxy that is down, and with no call failing reloaded or refused as squid's parser decides |
| Allow.SeedHeaderIsHeader | internal/proxy/vmaccess.go:222-227 | the header above a seed is comments only: no entry, no marker |
| Allow.ListFollowsItsConfig | internal/proxy/vmaccess.go:206-239 | path independence for the very text ensureVMAllowlist writes |
| Allow.ListRetraces | internal/proxy/vmaccess.go:206-239 | and line by line, for the templates of ReseedsExactly |
| Allow.FreshListExactly | internal/proxy/vmaccess.go:206-239 | a re-create with the configuration unchanged rewrites no byte of that text, up to its final newlines, if and only if the template meets the condition of FreshSeedExactly |
| Lifecycle.Host.BringUp | internal/proxy/proxy.go:353-385 | the proxy VM is started or created; a proxy that was up stays up, one found running keeps its disk and what squid has loaded, and no other VM is touched |
| Lifecycle.Host.CreateProxy | internal/proxy/proxy.go:356-378 | a proxy VM there is none of is created, rebooted where its address needs it, and no other VM is touched |
| Lifecycle.Host.Render | internal/proxy/proxy.go:329-351 | the template is seeded for a user who has none, the proxy VM's config written; the ledger and the registered VMs stay |
| Lifecycle.Host.Ensure | internal/proxy/proxy.go:329-400 | on success the proxy runs and its disk is as desired, and squid runs on that disk if it did before or booted on one that parses; "nothing changed" means nothing was; on any path a running proxy stays up; with nothing failing it succeeds |
| Lifecycle.Host.Raise | internal/proxy/proxy.go:353-400 | the proxy VM brought up, then synced: without error it runs with its disk as desired |
| Lifecycle.Host.StopIfIdle | internal/proxy/proxy.go:408-446 | with listings failing anywhere, the proxy is stopped only when no registered VM runs; when nothing was uncertain it stays up exactly for those it serves |
| Lifecycle.Host.AnyServed | internal/proxy/proxy.go:427-439 | the scan of the generated directory finds whether a registered VM is among those that run |
| Lifecycle.NamesRepoExactly | internal/cli/new.go:614-619 | a repo sidecar names a repo if and only if it is one absolute path on one line, with line ends behind it |
| Lifecycle.Host.StartSandbox | internal/cli/lifecycle.go:136-176 | a sandbox is started only behind a proxy that runs with the current files on its disk, which squid runs on if it did before or booted on files that parse, and only with the hooks of the repo it mounts set again; one that is up is made ready |
| Lifecycle.Host.StartCommand | internal/cli/lifecycle.go:118-130 | on success sandbox and proxy run; no port and no list changes |
| Lifecycle.Host.Shell | internal/cli/shell.go:26-56 | a stopped sandbox is brought up the way start does it, its hooks set again first; one that is up is entered as it is |
| Lifecycle.Host.StopCommand | internal/cli/lifecycle.go:178-201 | it brings no VM up; on success with every listing answered the sandbox is down and the proxy stays up exactly for the others |
| Lifecycle.Host.ReconcileAllowlist | internal/cli/new.go:456-477 | a list that outlived its VM becomes the reconciled text for the settings resolved now |
| Lifecycle.Host.ReviewPlan | internal/cli/new.go:313-366 | the offers change only the features this VM's settings resolve to and its list; without an edit the list follows the features |
| Lifecycle.Host.TakePort | internal/cli/new.go:127-150 | the ledger gains at most this VM's least free port; an error changes no file |
| Lifecycle.Host.Prepare | internal/cli/new.go:127-190 | the ledger gains at most this VM's least free port, before the config is rendered; no file but its three artifacts changes |
| Lifecycle.Host.Boot | internal/cli/new.go:201-226 | create, stop, start: behind a running proxy at every moment, and booted twice when it succeeds |
| Lifecycle.Host.Admit | internal/cli/new.go:229-250 | a guest whose check does not pass gets nothing: the call fails and the token goes nowhere; one that passes gets the token if there is one |
| Lifecycle.Host.InjectToken | internal/cli/new.go:694-722 | no token is no error, a token that would break the profile is, and a token that is there is in the VM when the call succeeds |
| Lifecycle.Host.Provision | internal/cli/new.go:192-250 | a VM is created only once the proxy runs and holds its list on its disk |
| Lifecycle.Host.New | internal/cli/new.go:48-250 | success: running, its guest booted twice and passing its check, with the token if there is one, hooks set, a port and its own list on the proxy's disk, which squid runs on if it did before or booted on files that parse; a guest that does not come out secure means failure and no token; no VM is created from a config the backend did not accept; failure: nothing but its own artifacts left, and a taken name changes nothing; the list is reconciled or freshly seeded; with nothing failing and a port free it succeeds |
| Lifecycle.Host.RemoveArtifacts | internal/cli/lifecycle.go:85-99 | on success config, repo sidecar, port and ssh link are gone and the answer says whether any was there; the slot is given up only once the config is gone; other files, ports and links stay |
| Lifecycle.Host.Retire | internal/cli/lifecycle.go:104-116 | a proxy that is up has the ledger without the VM on its disk, which squid still runs on if it did before, and stays up exactly for those left |
| Lifecycle.Host.Destroy | internal/cli/lifecycle.go:60-71 | with an archive asked for, a VM that is not running or not archived is not deleted |
| Lifecycle.Host.Rm | internal/cli/lifecycle.go:26-77 | success: VM, artifacts and port gone, the proxy told; with an archive asked for, gone only once archived; always: no other VM, port, file or allowlist is touched; it also clears a create that failed before its VM |
| Lifecycle.SameLedger | internal/proxy/ports.go:39-65 | files that are no sidecars never change the ledger |
| Lifecycle.NewThenRm | internal/cli/lifecycle.go:46-58 | whatever point a create failed at, a later successful rm leaves directory and ledger as before it |
| Lifecycle.MisledRmStrands | internal/cli/lifecycle.go:46-58 | an rm told by its first listing that the last running sandbox is not there, with nothing else failing: it succeeds, removes the config and takes the proxy down under the sandbox |
| Lifecycle.MisledNewAdopts | internal/cli/new.go:94-200 | a new told by its first listing that a running VM with no config is not there, the proxy down and nothing else failing: at some moment a registered sandbox ran without the proxy |
| Lifecycle.StaysCovered | internal/cli/lifecycle.go:26-201 | from any state in which created sandboxes are covered and each has its config, every further run keeps both at every moment, short of an rm told that one of them is not there |
| Lifecycle.Strand | internal/cli/lifecycle.go:118-201 | and only then: once a created sandbox has no config, a run in which every listing and every call succeeds leaves it running without the proxy |
| Lifecycle.RunAll | internal/cli/lifecycle.go:26-201 | over every run of new, start, shell, stop, rm and install with any call failing: the ledger holds, every VM that holds the token has a guest that passes its check, a port is held until its own rm, a list kept until its own re-create; at no moment does a registered sandbox run without the proxy, unless a new was told that a running unregistered VM is not there with the proxy down; nor a created one, each of which keeps its config, unless an rm was told that one of them is not there |
| ShellConf.ExpandText | internal/config/shellconf.go:188-229 | the index loop yields the pieces of the text filled in, or refuses it for a backtick or a $( anywhere |
| ShellConf.NextPiece | internal/config/shellconf.go:193-227 | one turn of the loop: which piece starts here and where the next one does |
| ShellConf.ReadText | internal/config/shellconf.go:138-181 | single-quoted, double-quoted and bare values, what they mean and what follows them |
| ShellConf.ReadAssignment | internal/config/shellconf.go:97-123 | a line is blank, a comment, an assignment with its value, or one of the errors |
| ShellConf.ParseFile | internal/config/shellconf.go:23-76 | the loop over a file: settings, warnings and variables as accumulated line by line, or the first bad line; a missing file sets nothing |
| ShellConf.DependsOnlyOnRefs | internal/config/shellconf.go:91-123 | whether a line parses, how it fails and the name it assigns never depend on the variables; its value depends only on those it names |
| ShellConf.SpellingReadsBack | internal/config/shellconf.go:148-164 | every value without a backtick has a double-quoted spelling that reads back exactly under any variables |
| ShellConf.SpellableExactly | internal/config/shellconf.go:188-191 | a value can be written in double quotes if and only if it holds no backtick |
| ShellConf.AssignmentReadsBack | internal/config/shellconf.go:97-123 | a name and such a spelling make a line that assigns exactly that |
| ShellConfLaws.ExpandsBraces | internal/config/shellconf.go:207-215 | ${NAME} is what is looked up for everything between the braces, then the expansion of the rest |
| ShellConfLaws.ExpandsName | internal/config/shellconf.go:216-226 | $NAME, before a byte that does not go on with the name, is what is looked up for it, then the expansion of the rest |
| ShellConfLaws.ExpandsBackslash | internal/config/shellconf.go:194-198 | a backslash makes the dollar after it literal and is itself before anything else |
| ShellConfLaws.ExpandsDollar | internal/config/shellconf.go:199-224 | a dollar before anything that starts no reference is a dollar |
| ShellConfLaws.ExpandsNoCommand | internal/config/shellconf.go:189-206 | a backtick anywhere and a $( that is reached refuse the text |
| ShellConfLaws.ReadsSingleQuoted | internal/config/shellconf.go:139-146 | between single quotes everything is literal; a quote that is never closed is an error |
| ShellConfLaws.ReadsDoubleQuoted | internal/config/shellconf.go:148-164 | between double quotes a backslash drops out before any character, then the text is expanded; a quote that is never closed is an error |
| ShellConfLaws.ReadsBare | internal/config/shellconf.go:166-179 | a bare value ends at a blank and is expanded, its leading tilde first |
| ShellConfLaws.LineReads | internal/config/shellconf.go:97-123 | blanks and an export before an assignment do not matter, and only a comment may follow its value |
| ShellConfLaws.NamesAre | internal/config/shellconf.go:125-134 | a name is letters, figures and underscores, and does not start with a figure |
| ShellConfLaws.BracedSetting | internal/config/shellconf.go:23-76 | a line KEY="${NAME}tail" sets the key to what NAME is by then, in the file or else in the environment, then the tail's expansion, or refuses the file at that line |
| ShellConfLaws.NamedSetting | internal/config/shellconf.go:23-76 | and KEY="$NAMEtail" does, before a tail that does not go on with the name |
| ShellConfLaws.WarnsOfUnknown | internal/config/shellconf.go:58-74 | the warnings are exactly the assignments to settings the program does not know, by line, in order |
| Merge.NamesIn | internal/cli/mergeconfig.go:49-63 | the last assignment of each name and the order of first assignments, or refusal at a line that is no assignment |
| Merge.PlaceLines | internal/cli/mergeconfig.go:65-84 | each user line takes the place of the first commented default of its name |
| Merge.Sort | internal/cli/mergeconfig.go:86-93 | carried and orphaned names, each in file order |
| Merge.AppendOrphans | internal/cli/mergeconfig.go:95-104 | orphans follow their header, commented |
| Merge.MergeSettings | internal/cli/mergeconfig.go:46-106 | the merge declines exactly the files with a line that does not parse, and otherwise joins those lines |
| MergePlaces.CommentedReads | internal/cli/mergeconfig.go:71-75 | a commented line stands for the setting it would assign without its hash |
| MergePlaces.ActiveIsNoDefault | internal/cli/mergeconfig.go:71-75 | a line without a hash stands for none |
| MergePlaces.LastLineWins | internal/cli/mergeconfig.go:49-63 | the line kept for a name is its last |
| MergePlaces.OrderIsByFirst | internal/cli/mergeconfig.go:49-63 | names come in the order of their first lines |
| MergePlaces.PlacedAt | internal/cli/mergeconfig.go:65-84 | line by line: the user's line exactly at the first commented default of its name, the new file's own line everywhere else |
| MergePlaces.MergedAt | internal/cli/mergeconfig.go:95-104 | below those lines come a blank one, the header and each orphan commented out, in order; nothing when there is no orphan |
| MergePlaces.ReportsKeepOrder | internal/cli/mergeconfig.go:86-93 | carried and orphaned names keep the file's order and together are all of it |
| Merge.EachCarriedOnce | internal/cli/mergeconfig.go:65-93 | with nothing active in the new file, the merged one assigns exactly the names that have a home, each once, by the user's own last line |
| Merge.NothingIsLost | internal/cli/mergeconfig.go:86-101 | every name the user assigned is at its setting or commented under the header, and reported as the one or the other |
| Merge.MergedParses | internal/cli/mergeconfig.go:95-98 | whatever parses, merged into whatever parses, parses |
| Merge.SettingsSurvive | internal/cli/mergeconfig.go:39-106 | with a commented default for every known key and no setting expanding a variable of the same file, the merged file sets exactly what the old one did |
| MergeWords.WordsMean | internal/config/shellconf.go:23-76 | reading a file with the environment open gives each variable and setting as a word of characters and environment names, which says what parsing makes of it in every environment |
| MergeWords.AlikeExactly | internal/config/shellconf.go:188-229 | two files' words read alike in every environment if and only if they are the same words |
| MergeWords.SettingsSurviveExactly | internal/cli/mergeconfig.go:39-106 | for any two files that parse: the merged file sets what the old one did, in every environment, if and only if each setting is the same word through the placed lines as through the old file |
| Merge.ScratchVariableIsLost | internal/cli/mergeconfig.go:95-101 | a setting that expands a scratch variable of the same file falls back to the environment after a merge, for every such variable and value |
| Merge.UpdatingTwiceExactly | internal/cli/mergeconfig.go:39-106 | a second update changes nothing if and only if nothing was orphaned: commented-out settings do not survive the next one |
| Merge.ParsedSetting | internal/config/shellconf.go:58-70 | a setting is what its last line says, when that line names nothing the file assigns |
| Chunks.Cut | internal/narrate/narrate.go:119-133 | a text cut in two has the lines of the first part, then those of the second behind the first part's unfinished line |
| Narrate.Stream.Begin | internal/narrate/narrate.go:101-107 | the replay starts over; an unfinished line is kept |
| Narrate.Stream.Keep | internal/narrate/narrate.go:159-165 | the buffer stays the last two hundred lines since Begin, the flag exactly whether there were more |
| Narrate.Stream.Write | internal/narrate/narrate.go:122-133 | the byte loop emits the newly finished lines, carriage returns dropped, holds the rest and answers the length of what it was given |
| Narrate.Stream.End | internal/narrate/narrate.go:109-117 | the unfinished line is emitted as it is and the outcome remembered |
| Narrate.Stream.Replay | internal/narrate/narrate.go:135-148 | a failed invocation's last two hundred lines, and whether earlier ones were dropped |
| Narrate.Invoke | internal/narrate/narrate.go:101-133 | however the bytes are cut into writes, the lines between Begin and End are the lines of the whole |
| Narrate.InvokeAll | internal/narrate/narrate.go:101-148 | invocation after invocation, nothing of one leaks into the next and the replay is the last one's |
| Narrate.FinalNewlineExactly | internal/narrate/narrate.go:109-133 | a final newline makes no difference if and only if the text ends in an unfinished line without a carriage return |
| Logs.LineFilter.Write | internal/cli/logs.go:137-152 | it takes everything it is given: without errors exactly the newly finished matching lines pass, in order; a failing writer only ever got a prefix of what was due |
| Logs.LineFilter.Flush | internal/cli/logs.go:154-160 | an unfinished matching line passes, and nothing stays pending |
| Logs.ContainsExactly | internal/cli/logs.go:129-160 | a line matches if and only if it is the text with something around it |
| Logs.Run | internal/cli/logs.go:129-160 | for any chunking, what comes out is the matching lines of the whole stream in order, a final unterminated one included |
| LogFields.ReadValue | internal/narrate/narrate.go:483-509 | the index loops find a quoted or bare value and where it ends |
| LogFields.NextField | internal/narrate/narrate.go:455-475 | one turn of the loop: the next pair, the end of the line, or no pair |
| LogFields.ReadFields | internal/narrate/narrate.go:451-481 | the loop returns the last value of each key, or nothing |
| LogFields.LastWinsValue | internal/narrate/narrate.go:451-481 | a key's value is that of the last field with it |
| LogFieldsLaws.ValueReads | internal/narrate/narrate.go:483-509 | a value printed bare, or quoted with any legal escapes, single bytes from 0x80 up among them, reads back exactly whatever follows it |
| LogFieldsLaws.LineReads | internal/narrate/narrate.go:451-481 | every line of printed pairs reads back as those pairs |
| LogFieldsLaws.ReadsExactlyWhatIsPrinted | internal/narrate/narrate.go:451-509 | a line is read if and only if it could have been printed, and then as exactly what was printed: all of it or nothing |
| LogQuotes.QuotedReadsBack | internal/narrate/narrate.go:483-509 | what %q prints for any text or bytes, written out digit by digit, is read back as that, up to its closing quote |
| LogQuotes.NumberReads | internal/narrate/narrate.go:483-509 | hexadecimal digits of either case read back as the number they print |

## Left out

- Backends, ssh, git, editors and LM Studio: foreign calls that succeed or fail. What git and vm/verify.sh do is not followed: that the hooks were set is a step taken, and what the check looks for is a property of the guest that its first boot decides.
- Templates and scripts (host/, vm/, config/): an arbitrary allowlist template, an arbitrary rendered config, an arbitrary deny-only prefix and suffix around the generated rules.
- Rendering, wording of messages, error texts and their line numbers in templates, elapsed times, terminal output and the patterns that translate the backend's log: presentation only. `Narrate` follows lines up to the point where they are rendered.
- Layering of the main and per-VM settings, validation of setting values, argument parsing, VM colours: straightforward, and independent of the rest. A per-VM configuration is the set of its features, or none when it does not parse.
- The mount read back out of a rendered Lima config: an arbitrary predicate on its text.
- Concurrent ptrbox processes, torn writes, and VMs changed outside ptrbox: the program makes no claim about them. A listing is complete or empty, and a status that is listed is the VM's.
- Carriage returns in files, and the scanner's limit on the length of a line: lines are split at newlines only. `Narrate` does model the carriage return it trims.
- Bytes: text is a sequence of characters, which matters only for invalid UTF-8.
- Ports.GeneratedDir.ReleasePort: the function exists in the program, and `rm` removes the same file on its own.
- Sync.RollingBackUndoes: needs the reads before the push to have failed only where there was no file, because the program takes any failed read for an absent file.
- Lifecycle.Host.BringUp: a booting proxy VM is taken to start squid on its disk when that parses, and on anything when it does not; the disk of a created one is arbitrary.
- Squid's own persistence: it runs on what it last loaded until a reload or a boot of its VM; a restart inside the VM that ptrbox did not ask for is not modelled.
- Lifecycle.Host.ReviewPlan: the text of the settings file is not followed through the editor, only the features it resolves to.
- Lifecycle.RunAll: `allow` and `sync-proxy` move no VM and are not among the commands of a run; `Allow` and `Sync` state what they do.
- LogFields.ReadValue: two spellings of one text, a character as itself and as the bytes of its encoding, stay two values here, and a line that is not valid UTF-8 is not modelled.
