# WEBYCP verification

A Dafny model of the parts of WEBYCP where two copies of state must stay in step although calls fail, jobs are retried
and requests interleave, and where a writer and a reader must agree:

- **FTP access**: account rows and `ftp.sync` jobs in the store, the account files on the node, the compiled login
  database, and account suspension (`FtpLine`, `FtpHost`, `FtpDriver`, `FtpStore`, `FtpSync`, `FtpLimits`, `FtpService`,
  `FtpLaws`).
- **DNS records**: record rows and jobs in the store, record sets at the provider (`DnsRender`, `DnsZone`, `DnsSync`,
  `DnsConverge`, `DnsGuards`, `DnsStale`, `DnsOutcome`, `DnsRaces`, `DnsService`, `NameLaws`, `DnsLaws`).
- **Backups**: the archive writer, the inspecting reader, the restore, the exported metadata and its restoring
  transaction, package limits, retention (`EntryPath`, `ArchiveFormat`, `ArchiveWriter`, `ArchiveRestore`, `ArchiveLaws`,
  `Hosting`, `HostingWrites`, `HostingLaws`, `MetadataRestore`, `MetadataStore`, `MetadataTx`, `BackupReads`,
  `MetadataRuns`, `ExportLaws`, `Retention`).
- **Configuration changes** of nginx and PHP-FPM with rollback (`ConfigTx`, `ConfigDriver`, `ConfigLaws`).
- **Jobs**: their life cycle, which every run model shares, the worker, and the domain rename with its compensation
  (`Jobs`, `Worker`, `JobLaws`, `Rename`, `RenameService`, `RenameLaws`).
- **Password hashes**: the printed form and its parser (`PasswordHash`, with `Base64`).

`Text` and `Order` hold the text and sorting primitives. Run `dafny verify dfyconfig.toml`.

Every machine has two layers. Value functions say what one call does to the whole state, with every fault of the call as
a parameter, and the theorems are about runs of them. Classes with loops and fields follow the program's own steps, and
each method's contract ties its new state to the value function. Interleavings are sequences of steps: requests, the
stages of the single worker, agent calls that are lost, applied without an answer, or refused, lost store writes, and
restarts. The store is one SQLite connection, so transactions are atomic and serial.

The `Laws` modules say what the value functions compute without naming them: what a call leaves in each column, file or
byte, exactly when it is taken, and, over runs, that what a request asked for is what is served, backed up or restored.

## What the proofs found

- A failed enable of an account lifts its suspension when it has no FTP file: the home is opened before the layout step,
  nothing closes it again when that step fails, and the next sync grants logins (`FtpHost.FailedEnable`,
  `FtpHost.ReopenedHomeAdmitsLogins`).
- DNS converges except for three families of runs, each shown by a run that comes to rest with a wrong zone
  (`DnsRaces`): a record renamed before its old key was ever recorded as synced; a record renamed while its own sync
  holds the rows it listed; a job closed before its handler ran while nothing else is open for its keys. The guards that
  exclude them are exact: at every stage of the worker a rename, and a job closed without its handler, keep the
  invariant for every provider state if and only if the guard holds (`DnsGuards.UpdateSafeExactly`,
  `DnsGuards.CloseStepExactly`). A key such a step leaves wrong stays wrong through every run that does not ask for it
  again (`DnsStale`).
- A TXT value of control characters can be stored and is then refused by the agent: quoting makes it longer than 2048
  (`DnsZone.StoredButRefused`).
- The archive writer has no bound on the manifest and accepts any file name, while the reader refuses a manifest above
  1 MiB and JSON replaces bytes that are not UTF-8: such a backup is created and can never be restored
  (`ArchiveWriter.AcceptedExactly`, `ArchiveWriter.WrittenButRefused`).
- Restored metadata can raise a counter above its limit when a row still there has another kind than the metadata says;
  exports never do (`MetadataRestore.DomainCountsExactly`, `MetadataRuns.StepWithinLimits`).
- A domain stays pending through every request, rename job, retry and restart when the last attempt of its rename is
  closed before the handler settles it, when its old name was taken by a metadata restore meanwhile, or when two rename
  requests overlap: the second to be queued stores the hostname it had read, the row by then has another, and its job
  never matches the row (`Rename.StuckExactly`, `Rename.StuckForever`, `Rename.StaleRequestStrands`).
- A create, enable or disable job that runs again, and a metadata restore of the domain, write the row of a pending
  rename without looking: the domain is then open to further renames with its old name still reserved, and a rename
  accepted while the worker finishes the earlier one is completed at once, its site never reconciled
  (`Rename.LingersExactly`, `Rename.OvertakenExactly`, `Rename.OvertakenCompletes`).
- The metadata of a backup is read by several queries while requests go on. It still never lists one hostname twice,
  which no store could restore, because a name waiting to be given up counts as taken and only the worker, busy with the
  backup, could free it (`MetadataRuns.BackupNamesApart`, `MetadataRuns.SharedNameIsRefused`).
- If a reload that reports a failure can nevertheless have loaded the change, the loaded configuration can stay behind
  the files (`ConfigTx.ConsistentExactly`).

## Model

| member | source | states |
|---|---|---|
| `Base64.DecodeEncode` | internal/auth/password.go:34-35 | decoding unpadded base64 gives back every byte string that was encoded (sections 3.2 and 4 of RFC 4648) |
| `Base64.GroupWorth` | internal/auth/password.go:34-35 | three bytes and their four letters are the same number in base 256 and base 64, in order; a short end counts zeros and has no padding (section 4 of RFC 4648) |
| `PasswordHash.ParsePrint` | internal/auth/password.go:61-96 | parsing a printed hash returns the same memory, iterations, threads, salt and key for all values in bounds |
| `PasswordHash.PrintParse` | internal/auth/password.go:61-96 | every accepted string is in bounds and is exactly the printing of what it parsed to |
| `PasswordHash.AcceptedExactlyWhenPrinted` | internal/auth/password.go:22-38 | accepted strings and in-bounds hashes are in bijection |
| `PasswordHash.PrintLength` | internal/auth/password.go:63-65 | a printed hash has at most 97 characters, so the cut-off at 128 never refuses one |
| `PasswordHash.AcceptedIsSafeText` | internal/auth/password.go:50-53 | an accepted hash holds no colon and no line break, so it cannot break a line of the login database |
| `PasswordHash.PrintedForm` | internal/auth/password.go:29-37 | the printed hash is `$argon2id$v=19$`, memory, iterations and threads in decimal, salt and key |
| `PasswordHash.ParsedExactly` | internal/auth/password.go:61-96 | a printed hash is taken back exactly up to 64 MiB, 3 iterations and 2 threads, none of them zero, with 16 bytes of salt and 32 of key |
| `FtpLine.ParsePrintedLine` | internal/agent/ftp/pureftpd/pureftpd.go:261 | splitting a printed line at the colons gives back username, hash, user and group id, login id and home |
| `FtpLine.DecodePrintedText` | internal/agent/ftp/pureftpd/pureftpd.go:265-272 | splitting the sorted text at line breaks gives back exactly the printed logins |
| `FtpDriver.CheckEntries` | internal/agent/ftp/pureftpd/pureftpd.go:116-141 | accepts exactly the lists, present and of at most 100 well-formed entries, with distinct ids and distinct usernames |
| `FtpDriver.Driver.Rebuild` | internal/agent/ftp/pureftpd/pureftpd.go:229-285 | read in any file order, the compiled database decodes to the enabled logins of all unsuspended accounts, and it fails with the old database in place exactly when the files do not allow one |
| `FtpDriver.Driver.SaveFile` | internal/agent/ftp/pureftpd/pureftpd.go:199-227 | write, rebuild, roll back and disconnect have the effect and the outcome of `FtpHost.Save` under every fault |
| `FtpDriver.Driver.SyncEntries` | internal/agent/ftp/pureftpd/pureftpd.go:48-70 | the sync call has the effect and the outcome of `FtpHost.Sync` under every fault, and refuses an absent list |
| `FtpDriver.Driver.SetAccountEnabled` | internal/agent/ftp/pureftpd/pureftpd.go:72-96 | suspending and resuming an account file have the effect of `FtpHost.SetEnabled` |
| `FtpDriver.Driver.DeleteAccount` | internal/agent/ftp/pureftpd/pureftpd.go:98-114 | deletion suspends before it removes the file, with the effect of `FtpHost.Delete` |
| `FtpDriver.Manager.DisableAccount` | internal/agent/account/manager.go:27-29 | both halves are tried and both outcomes count |
| `FtpDriver.Manager.EnableAccount` | internal/agent/account/manager.go:31-43 | a failed FTP half is compensated, a failed home half is not |
| `FtpHost.RunKeepsConsistent` | internal/agent/ftp/pureftpd/pureftpd.go:199-285 | through any sequence of calls with any failing steps the compiled database equals the function of all account files, and usernames stay unique across them |
| `FtpHost.LoginsAreAFunction` | internal/agent/ftp/pureftpd/pureftpd.go:246-251 | no two logins of the database share a username, suspended and disabled accounts included |
| `FtpHost.AccountLoginsFromFile` | internal/agent/ftp/pureftpd/pureftpd.go:252-263 | the logins of one account are those of its own file: none when suspended, else one for each enabled entry |
| `FtpHost.OtherFilesUntouched` | internal/agent/ftp/pureftpd/pureftpd.go:199-227 | a call about one account leaves file and home of every other account as they were |
| `FtpHost.SuspensionHolds` | internal/agent/ftp/pureftpd/pureftpd.go:48-96 | once barred, an account has no login through any later sync or disable of it and any calls about others |
| `FtpHost.DisableBars` | internal/agent/account/manager.go:27-29 | a disable that reports success leaves the account barred, with or without an FTP file |
| `FtpHost.FailedEnable` | internal/agent/account/linux.go:51-68 | a compensated failed enable keeps the bar if and only if the account has an FTP file or its home was not reopened |
| `FtpHost.ReopenedHomeAdmitsLogins` | internal/agent/account/manager.go:31-35 | the family where it does not: after the failed enable a sync grants every enabled login |
| `FtpHost.DisableThenEnable` | internal/agent/account/manager.go:27-43 | disable and then enable give back the same files and the same logins, so a login disabled by itself stays disabled |
| `FtpLaws.LoginGiven` | internal/agent/ftp/pureftpd/pureftpd.go:252-263 | a login has its entry's name, hash and id, the uid and gid of the account's system user, and the home of the first twelve digits of the account id |
| `FtpLaws.LineGiven` | internal/agent/ftp/pureftpd/pureftpd.go:261 | a line of the login database is name, hash, uid, gid, prefixed id and home in this order, then thirteen empty fields |
| `FtpLaws.SyncSucceedsExactly` | internal/agent/ftp/pureftpd/pureftpd.go:48-70 | a sync succeeds if and only if the identity is proven, the home is open or the account suspended, the entries are valid, nobody else has one of their names, and no step fails |
| `FtpLaws.SyncLeaves` | internal/agent/ftp/pureftpd/pureftpd.go:48-70 | a successful sync leaves the entries in the file, the suspension as it was, and exactly the enabled entries admitted to the home, none while suspended |
| `FtpLaws.AccountCallsExactly` | internal/agent/ftp/pureftpd/pureftpd.go:72-114 | suspending, resuming and deleting need every write for an account with a file and none for one without |
| `FtpLaws.DeleteLeaves` | internal/agent/ftp/pureftpd/pureftpd.go:98-114 | a successful delete leaves no file and admits nobody to the home |
| `FtpLaws.HomeCallsExactly` | internal/agent/account/linux.go:39-68 | the home is closed or opened exactly for a proven identity whose mode can be set; a failing layout step comes after the mode |
| `FtpLaws.DisableLeaves` | internal/agent/account/manager.go:27-29 | a successful disable closes the home, keeps the entries and admits nobody |
| `FtpLaws.EnableLeaves` | internal/agent/account/manager.go:31-43 | a successful enable opens the home and admits exactly the enabled entries of the file |
| `FtpStore.EntriesFromRows` | internal/ftp/service.go:124-145 | what a sync sends is one entry for each row of the account that is not being deleted, and nothing else |
| `FtpStore.EntriesOfFinish` | internal/store/sqlite/ftp.go:157-175 | recording an outcome changes no account's entries, whichever rows it removes |
| `FtpLaws.ChangeLeaves` | internal/store/sqlite/ftp.go:48-91 | an accepted change stores the name, hash and enabled flag where given and keeps them where not, marks the row as asked and pending, queues its job, and leaves every other row in its place |
| `FtpLaws.ChangeSucceedsExactly` | internal/store/sqlite/ftp.go:60-119 | it is accepted if and only if the account gate allows it, no job of the account is in hand, nobody else has the name, and a row being deleted is only deleted |
| `FtpLaws.CreateLeaves` | internal/store/sqlite/ftp.go:14-46 | an accepted creation adds the row as given, pending and not deleting, with its job |
| `FtpLaws.CreateSucceedsExactly` | internal/store/sqlite/ftp.go:14-46 | it is accepted if and only if gate, jobs, name, ids and the number of rows of the account below the limit allow it |
| `FtpLaws.FinishLeaves` | internal/store/sqlite/ftp.go:157-175 | recording removes the rows being deleted on success, sets the others of the account to active or disabled by their flag, or all to error, and touches no other row |
| `FtpLaws.ChangeIsServed` | internal/store/sqlite/ftp.go:48-91 | from the request to the logins, over every run: after an accepted change with no later request for the row, a settled unsuspended account is served that row with the name and hash asked for, and not at all when it was to be disabled or deleted |
| `FtpLaws.SyncGoesThrough` | internal/ftp/service.go:110-145 | a sync job without a fault closes its job, settles every row of the account and installs their entries |
| `FtpLaws.FailureLeaves` | internal/ftp/service.go:110-145 | a call that is lost or not answered is recorded as a failure, whether or not it took effect |
| `FtpLaws.OutOfTurn` | internal/ftp/service.go:110-145 | the worker makes its steps in their order, and a request changes neither the worker nor the node |
| `FtpLaws.CrashLeaves` | internal/store/sqlite/queries/jobs.sql:59-65 | a crash keeps rows and node and queues the running jobs again, their attempt given back |
| `FtpSync.RunKeeps` | internal/ftp/service.go:110-145 | the invariant of store, jobs, worker and node over every run of requests, sync jobs, lost answers, crashes and suspensions |
| `FtpSync.SettledMeansServed` | internal/ftp/service.go:110-145 | over every run, an unsuspended account whose rows are all active or disabled is served exactly the logins its enabled rows ask for |
| `FtpSync.LoginsHaveRows` | internal/store/sqlite/ftp.go:157-175 | over every run, a login the database accepts still has its row: a row disappears only after a state without it was installed |
| `FtpSync.OneJobOverRuns` | internal/store/sqlite/ftp.go:95-119 | over every run an account has at most one unfinished sync job |
| `FtpSync.RowsFrozenInFlight` | internal/store/sqlite/ftp.go:48-119 | between the reading of an account's rows and the recording of the outcome no request changes them |
| `FtpSync.DeletingIsFinal` | internal/store/sqlite/ftp.go:60-91 | a deleting mark is never cleared, the row keeps it until it is gone |
| `FtpLimits.StepWithinLimit` | internal/store/sqlite/packages.go:170-196 | no step raises an account's number of logins, but a create request, and that not above the limit it is checked against |
| `FtpLimits.LimitHolds` | internal/store/sqlite/packages.go:170-196 | over every run whose creations for the account are checked against at most a limit, it has no more logins than that |
| `FtpService.Store.RequireFTP` | internal/store/sqlite/ftp.go:95-119 | the guard passes exactly when the account is settled, and active and enabled for a new login, has no unfinished job, and the username is free |
| `FtpService.Store.CreateFTP` | internal/store/sqlite/ftp.go:14-46 | the transaction is the model's create step, capacity included |
| `FtpService.Store.ChangeFTP` | internal/store/sqlite/ftp.go:48-91 | the transaction is the model's change step, of which `FtpLaws.ChangeLeaves` says what it stores |
| `FtpService.Store.FinishFTP` | internal/store/sqlite/ftp.go:157-175 | the transaction is the model's finish step |
| `FtpService.Service.CollectEntries` | internal/ftp/service.go:124-138 | the loop collects the entries of the account in table order |
| `FtpService.Service.Sync` | internal/ftp/service.go:110-145 | the handler leaves store and node as the run model's steps do, under every fault |
| `Quoting.UnquoteQuote` | internal/dns/validation.go:77 | quoting a TXT text can be undone, so two texts never merge |
| `Quoting.QuoteLength` | internal/dns/validation.go:77 | printable text of n bytes quotes to at most 2n bytes without the quotes, any text to at most 4n |
| `DnsNames.AgentAcceptsServerName` | internal/agent/dns/model.go:97-118 | every record name the server produces is one the agent accepts |
| `DnsNames.RecordNameIdempotent` | internal/dns/validation.go:83-111 | normalising a normalised name changes nothing; `NameLaws` says what the name is |
| `NameLaws.RelativeName` | internal/dns/validation.go:88-90 | a label normalises to itself below the zone, an asterisk to the wildcard of the zone |
| `NameLaws.FullName` | internal/dns/validation.go:83-111 | a valid name of or below the zone normalises to itself |
| `NameLaws.ApexName` | internal/dns/validation.go:85-87 | the at sign and the zone itself normalise to the zone |
| `NameLaws.TakenExactly` | internal/dns/validation.go:83-111 | of the names without blanks, capitals and final dot exactly the at sign, the wildcard, single labels, and names of the zone made of labels are taken |
| `NameLaws.LabelsStayApart` | internal/dns/validation.go:83-111 | two labels never normalise to one name |
| `NameLaws.RecordNameIsOrdinary` | internal/dns/validation.go:83-111 | what is returned is the zone or a name below it of labels of 1 to 63 letters, digits, dashes and underscores, at most 253 characters long |
| `NameLaws.CaseDoesNotMatter` | internal/dns/validation.go:84 | names that differ in case normalise alike |
| `NameLaws.BlanksDoNotMatter` | internal/dns/validation.go:84 | so do names with blanks around them |
| `NameLaws.FinalDotDoesNotMatter` | internal/dns/validation.go:84 | and names with and without a final dot |
| `NameLaws.AgentNameExactly` | internal/agent/dns/model.go:97-118 | the agent takes exactly the zone and the names below it of valid labels |
| `DnsZone.NormalizedIsNormal` | internal/dns/validation.go:46-68 | what is stored meets the agent's conditions: an agent-valid name, a bounded TTL, plain or one-line content, a priority only for MX, no CNAME at the zone's own name |
| `DnsLaws.ContentGiven` | internal/dns/validation.go:113-148 | a content is the parsed address or host, or the text itself when it is one line of at most 1000 characters; an MX keeps its priority, which no other type has |
| `DnsLaws.NormalizeGives` | internal/dns/validation.go:46-68 | a normalised record has the name of the name rules and the kind, TTL, content and priority asked for |
| `DnsLaws.NormalizeRefuses` | internal/dns/validation.go:46-68 | it is refused exactly for its name, its TTL, its content, or as a CNAME at the zone's own name |
| `DnsLaws.RenderForms` | internal/dns/validation.go:70-81 | the provider is sent an address as it is, a host with a final dot, an MX with its priority in decimal before the host, a text in quotes |
| `DnsLaws.QuoteForms` | internal/dns/validation.go:77 | inside the quotes printable characters stay, a quote and a backslash get a backslash, control characters their escape |
| `DnsZone.RenderInjective` | internal/dns/validation.go:70-81 | two values of one key that render alike have the same content and priority |
| `DnsZone.SetIgnoresOrder` | internal/dns/service.go:408-430 | under the store's rules the merged set does not depend on the order the rows are listed in |
| `DnsZone.SetMeaning` | internal/dns/service.go:415-428 | a merged set is the sorted, duplicate-free rendering of the live rows of its key, with their common TTL, which is 0 exactly when it is empty |
| `DnsZone.JobAcceptedExactly` | internal/agent/dns/model.go:58-91 | the agent accepts what a job sends if and only if each set has at most 100 rows and no TXT text quotes to more than 2048 bytes |
| `DnsZone.RenderAccepted` | internal/agent/dns/model.go:84-88 | a stored value renders to accepted content exactly when its quoted TXT fits, always for printable text |
| `DnsZone.StoredButRefused` | internal/dns/validation.go:137-142 | a request with 600 control characters as TXT at the zone's own name is normalised and stored, and the agent refuses its rendering |
| `DnsSync.PatchInstalls` | internal/agent/dns/powerdns/powerdns.go:149-172 | after a patch the provider holds exactly the sets sent, replaced or deleted |
| `DnsSync.RunKeepsZone` | internal/store/sqlite/dns.go:303-327 | over every run, without any guard, no two rows of one name are equal, a CNAME stands alone and rows of one type share their TTL (sections 5 and 5.2 of RFC 2181, section 3.6.2 of RFC 1034) |
| `DnsLaws.RulesAlways` | internal/store/sqlite/dns.go:303-327 | the same for any two rows, in their columns, over every run |
| `DnsLaws.CreateLeaves` | internal/store/sqlite/dns.go:160-194 | an accepted creation adds a pending row with the value asked for, no synced key, and a job to sync it |
| `DnsLaws.UpdateLeaves` | internal/store/sqlite/dns.go:223-257 | an accepted update gives the row the value asked for, pending, keeps its synced key, and queues a job |
| `DnsLaws.RemoveLeaves` | internal/store/sqlite/dns.go:259-285 | an accepted removal marks the row and queues its delete job |
| `DnsLaws.RequestsRefusedExactly` | internal/store/sqlite/dns.go:160-285 | requests are refused exactly for an inactive zone, an abnormal value, a row in the way, and an unknown, pending or deleting row |
| `DnsLaws.PreparedLeaves` | internal/dns/service.go:325-350 | up to the patch a job has claimed, read its row, listed the zone and marked the row |
| `DnsLaws.PatchLeaves` | internal/dns/service.go:344-352 | a patch leaves the provider, for the current and the last synced key, exactly the rows that are not being deleted with their TTL, and every other key as it was |
| `DnsLaws.OutcomeLeaves` | internal/dns/service.go:351-362 | the last write leaves the row gone, or active with its key as synced, or in error, and no other row changed |
| `DnsLaws.SettlingLeaves` | internal/jobs/worker.go:89-136 | after it the job has succeeded, or is queued again while an attempt is left, or has failed |
| `DnsLaws.OutOfTurn` | internal/dns/service.go:325-363 | the worker makes its steps in their order, and only a patch changes what the provider holds |
| `DnsLaws.CrashLeaves` | internal/store/sqlite/queries/jobs.sql:59-65 | a crash keeps rows and provider and queues the running jobs again, their attempt given back |
| `DnsConverge.NextKeeps` | internal/dns/service.go:325-363 | every guarded step keeps each key served as the table asks or accounted for by an unsettled row |
| `DnsConverge.OutcomeKeeps` | internal/dns/service.go:351-362 | recording the outcome, success, deletion or error, keeps it, although rows changed while the patch was under way |
| `DnsConverge.ListKeeps` | internal/dns/service.go:344-350 | rows listed in any order give the sets the table asks for |
| `DnsConverge.ReplaceKeeps` | internal/store/sqlite/dns.go:223-285 | an update or a delete request keeps it, also with a job of the same or another row in flight at any stage, when a key it gives up stays accounted for |
| `DnsOutcome.SettledKeysAgree` | internal/dns/service.go:325-363 | over every guarded run, the provider's set of a key no unsettled row touches equals the merged rows |
| `DnsOutcome.RestingZoneIsServed` | internal/dns/service.go:325-363 | a guarded run that comes to rest has the provider serve exactly the rendering of the rows, with their TTL |
| `DnsLaws.RequestIsServed` | internal/dns/service.go:199-363 | from the request to the provider: after an accepted creation or update with no later one of the row, a guarded run at rest with the row still there has the provider serve the value asked for |
| `DnsGuards.UpdateSafeExactly` | internal/store/sqlite/dns.go:223-257 | at every stage of the worker an accepted update keeps the invariant for every provider state if and only if the key is unchanged or the old one stays accounted for: an open row touches it, and the job in hand neither sends nor has sent for it what the new table no longer says |
| `DnsGuards.IdleExactly` | internal/store/sqlite/dns.go:223-257 | with no job past its claim that means: the key is unchanged, or was synced, or another open row has it |
| `DnsGuards.SyncedRenameIsSafe` | internal/dns/service.go:340-352 | a record whose current name was synced may be renamed at every stage except while its own sync holds its listing |
| `DnsGuards.CloseSafeExactly` | internal/jobs/worker.go:89-107 | without the job the table accounts for every difference, for every provider state, if and only if each key of its row is touched by a row that is open without it |
| `DnsGuards.CloseStepExactly` | internal/jobs/worker.go:89-136 | closing a job as failed with nothing recorded keeps the invariant for every provider state if and only if that holds and no deleting row is left with a sync job only |
| `DnsStale.UnattendedStays` | internal/dns/service.go:325-363 | a key no open row touches and the job in hand does not send keeps its merged rows and its set at the provider through every run without a request for it |
| `DnsStale.UnsafeUpdateStaysWrong` | internal/store/sqlite/dns.go:223-257 | with no job past its claim, an update outside the guard leaves, for some provider the invariant allows, the old key wrong in every such run, at rest or not |
| `DnsStale.InFlightStaysWrong` | internal/dns/service.go:344-362 | a row renamed away from its synced name while its own sync holds its listing, outside the guard: when that sync succeeds the old name is wrong in every such run, whatever the provider held |
| `DnsStale.UnsafeCloseStaysWrong` | internal/jobs/worker.go:89-136 | a job closed with nothing recorded while some key of its row is held by nothing else leaves, for some provider the invariant allows, that key wrong in every such run |
| `DnsRaces.RenameUnsyncedLeavesOldName` | internal/dns/service.go:408-414 | a run that renames a record whose first patch was applied but not acknowledged rests with the old name served |
| `DnsRaces.RenameInFlightLeavesOldName` | internal/store/sqlite/queries/dns.sql:135-138 | a run that renames a record during its retry rests with the old name served, since completing records the new key as synced |
| `DnsRaces.DropLastLeavesOldContent` | internal/jobs/worker.go:89-107 | a run whose last job of an active row is closed before its handler rests with the old content served |
| `DnsService.MergeKey` | internal/dns/service.go:416-427 | the inner loop over the rows computes the merged set of one key |
| `DnsService.MergeRecordSets` | internal/dns/service.go:408-430 | the two loops compute the sets of the last synced key, when it differs, and of the current key |
| `DnsService.ValidateRecordSets` | internal/agent/dns/model.go:58-91 | accepts exactly one or two sets with distinct keys, each acceptable for the zone |
| `DnsService.Store.EnsureAvailable` | internal/store/sqlite/dns.go:303-327 | the scan passes exactly when no other row of the name stands in the way |
| `DnsService.Store.CreateRecord` | internal/store/sqlite/dns.go:160-194 | the transaction is the model's create step |
| `DnsService.Store.QueueUpdate` | internal/store/sqlite/dns.go:223-257 | the transaction is the model's update step and leaves the synced key |
| `DnsService.Store.QueueDelete` | internal/store/sqlite/dns.go:259-285 | the transaction is the model's delete request |
| `DnsService.PowerDNS.SyncRecordSets` | internal/agent/dns/powerdns/powerdns.go:137-174 | nothing changes unless the sets are acceptable and the zone is owned; then the provider holds the patch even when the answer is lost |
| `DnsService.Service.ProvisionRecord` | internal/dns/service.go:325-363 | the handler leaves store and provider as the run model's steps do, under every fault |
| `EntryPath.ValidEntryPathExactly` | internal/agent/backup/local/local.go:499-501 | accepted entry names are the dot and the names whose parts are all non-empty and neither dot nor dot-dot |
| `ArchiveFormat.CheckRecords` | internal/agent/backup/local/local.go:370-378 | the count test and the look-up-and-delete loop accept exactly a one-to-one matching of records and members with equal size and checksum |
| `ArchiveFormat.Inspect` | internal/agent/backup/local/local.go:313-380 | the loop over the members accepts, with that manifest, exactly the archives that `ArchiveLaws.AcceptedMeans` spells out, and reports another version exactly when all but the version is readable |
| `ArchiveLaws.AcceptedMeans` | internal/agent/backup/local/local.go:313-380 | what that means: regular files and directories with names that never climb, each once; one manifest within 1 MiB, of format 4, a valid run and this account; scopes as held; for each file one record with its size and hash, and no others |
| `ArchiveLaws.TamperedIsRefused` | internal/agent/backup/local/local.go:370-378 | an archive with one member changed is accepted only when length and hash of the member are the same |
| `ArchiveLaws.ForeignIsRefused` | internal/agent/backup/local/local.go:360 | an archive written for one account is accepted for no other |
| `ArchiveLaws.RestoreForeign` | internal/agent/backup/local/local.go:133-196 | restoring it into another account is refused and changes nothing |
| `ArchiveWriter.WriteArchive` | internal/agent/backup/local/local.go:208-260 | writes walk, dumps, metadata and manifest, or nothing when the home holds a link or a special file |
| `ArchiveLaws.WrittenMembers` | internal/agent/backup/local/local.go:208-310 | in order: each path of the home under `files/` with its mode and data, a dump for each database, the metadata unless empty, the manifest last |
| `ArchiveLaws.WrittenManifestSays` | internal/agent/backup/local/local.go:208-260 | the accepted manifest names the run, account and time of the request, and the scopes the archive holds |
| `ArchiveWriter.AcceptedExactly` | internal/agent/backup/local/local.go:313-380 | the reader gives back exactly the written manifest, if and only if it has at most 1 MiB and every archived path is UTF-8 text |
| `ArchiveWriter.WrittenButRefused` | internal/agent/backup/local/local.go:208-260 | a home with one file whose name JSON cannot carry is archived, and no reader accepts that archive |
| `ArchiveRestore.Agent.Restore` | internal/agent/backup/local/local.go:133-196 | a refused archive, scope or identity writes nothing; otherwise the members are restored in order and the metadata returned, or a failure leaves exactly the members before it restored |
| `ArchiveRestore.RestoreWritten` | internal/agent/backup/local/local.go:395-458 | a written archive restored into any home gives that home overridden by the tree with masked modes and repaired owners, all else untouched, dumps in order; it stops exactly when an archived path meets another type |
| `ArchiveRestore.OverrideMeaning` | internal/agent/backup/local/local.go:395-458 | archived paths hold what was archived, every other path what it held before |
| `ArchiveLaws.RestoredExactly` | internal/agent/backup/local/local.go:395-458 | a member is restored if and only if its name is valid, no link or file stands on its way, and nothing of another type in its place |
| `ArchiveLaws.RestoredMember` | internal/agent/backup/local/local.go:395-458 | it then has the data of the member, rwxrwx--- and the setgid bit of a directory or rw-rw---- of a file, and belongs to the account, below web to the web group |
| `ArchiveLaws.RestoredElsewhere` | internal/agent/backup/local/local.go:395-458 | every other path stays, except that missing directories above it are made |
| `ArchiveLaws.RestoredPaths` | internal/agent/backup/local/local.go:133-196 | after the whole restore this holds of every archived path |
| `ArchiveLaws.RestoredDumps` | internal/agent/backup/local/local.go:133-196 | the database clients got the dumps in order, each for its own database |
| `ArchiveLaws.ScopesApart` | internal/agent/backup/local/local.go:133-196 | no archive, written here or not, touches a scope that was not asked for |
| `ArchiveLaws.MetadataLeaves` | internal/agent/backup/local/local.go:183-188 | the metadata returned is that of the archive, cut at 4 MiB |
| `ArchiveLaws.ReturnableExactly` | internal/agent/backup/local/local.go:133-160 | a written archive can be restored exactly with at least one scope and none that it was not asked to hold or found empty |
| `ArchiveRestore.MetadataVerbatim` | internal/agent/backup/local/local.go:183-188 | metadata within the writer's limit comes back verbatim |
| `ArchiveRestore.RoundTrip` | internal/agent/backup/local/local.go:133-260 | writing a home and restoring it over whatever the home has become is refused exactly when manifest, paths or scope do not allow it, fails exactly when an archived path meets another type, and else returns the metadata, overrides the home by the tree and loads the dumps |
| `Hosting.PrimaryUsageIsWebsiteUsage` | internal/store/sqlite/packages.go:170-177 | with one primary domain for each website the two counters of every account are equal |
| `Hosting.DomainCheckNeverFails` | internal/packages/service.go:107-110 | with limits the package check accepts, the domain check of website creation cannot fail after the website check passed |
| `Hosting.CreateWebsiteSound` | internal/store/sqlite/websites.go:16-57 | creating a website keeps foreign keys, unique hostnames and exactly one primary domain for each website |
| `MetadataTx.Store.CreateWebsiteProvision` | internal/store/sqlite/websites.go:16-57 | the transaction writes website and primary domain exactly when both counters and the hostname allow it |
| `MetadataTx.Store.CreateWebsiteDomainProvision` | internal/store/sqlite/websites.go:59-91 | the transaction writes an alias exactly when the alias counter and the hostname allow it |
| `MetadataTx.Store.HostnameAvailable` | internal/store/sqlite/websites.go:284-293 | a hostname is available exactly when no domain has it, now or as the name it is being renamed from |
| `MetadataTx.Store.PrepareLimits` | internal/packages/service.go:84-110 | a package is accepted exactly when the modelled limits are at most a million and it allows at least as many domains as websites |
| `Hosting.CreateAliasSound` | internal/store/sqlite/websites.go:59-91 | so does adding an alias |
| `Hosting.ShrunkSound` | internal/store/sqlite/queries/websites.sql:123-127 | so do the deletions, which cascade from a website and spare primary domains |
| `HostingLaws.WebsiteCreated` | internal/store/sqlite/websites.go:16-57 | a new website and its primary domain are pending and enabled, on the node of the account, and nothing else changed |
| `HostingLaws.WebsiteCreatedExactly` | internal/store/sqlite/websites.go:16-57 | they are created if and only if the account has a node, the counters are below the limits, the ids are new and no domain has or awaits the hostname |
| `HostingLaws.AliasCreated` | internal/store/sqlite/websites.go:59-91 | the same for an alias |
| `HostingLaws.RowsDeleted` | internal/store/sqlite/queries/websites.sql:123-127 | a website takes exactly its domains with it, an alias goes alone, a primary domain does not go |
| `HostingLaws.LimitsSet` | internal/packages/service.go:84-110 | limits up to a million each, with at least as many domains as websites, are taken and change nothing else |
| `MetadataTx.Store.CreateDatabaseProvision` | internal/store/sqlite/databases.go:14-50 | the transaction writes a database exactly when its counter, its name within the account and its system name allow it |
| `MetadataTx.Store.QueueWebsiteDomainRename` | internal/store/sqlite/websites.go:233-258 | the transaction moves the name exactly when the row is not pending and the new name is free, as the current or the awaited old name of any domain |
| `HostingWrites.CreateDatabaseKeeps` | internal/store/sqlite/databases.go:14-50 | a new database keeps the unique columns apart and no counter above its limit grows |
| `HostingWrites.CreateTaskKeeps` | internal/store/sqlite/tasks.go:13-41 | the same for a new scheduled task |
| `HostingWrites.WriteRewrites` | internal/store/sqlite/queries/websites.sql:88-121 | no update of a row, a rename and its compensation included, changes owner, website, kind or a unique claim, or gives two domains one hostname |
| `HostingLaws.DatabaseCreated` | internal/store/sqlite/databases.go:14-50 | a new database is pending and enabled on the account's node, if and only if its counter and both its names allow it |
| `HostingLaws.TaskCreated` | internal/store/sqlite/tasks.go:13-41 | a new task has the definition and flag asked for, if and only if its counter allows it |
| `HostingLaws.RenameWrites` | internal/store/sqlite/queries/websites.sql:98-115 | queueing a rename stores both names and completing it drops the old one, nothing else changes |
| `HostingLaws.RenameFails` | internal/store/sqlite/queries/websites.sql:117-121 | a failed rename takes the old name back if and only if no other domain has it |
| `HostingLaws.EnableWrites` | internal/store/sqlite/websites.go:185-231 | enabling and disabling set flag and status exactly of a row that is not pending, and of no primary domain |
| `HostingLaws.TaskWrites` | internal/store/sqlite/tasks.go:43-67 | an updated task has what was asked for; a sync sets the status of every task of its account by its flag |
| `MetadataRestore.RestoreRestores` | internal/store/sqlite/backups.go:300-430 | a restore that succeeds leaves every listed website, domain, database and task with its exported definition |
| `HostingLaws.RowsRestored` | internal/store/sqlite/backups.go:343-420 | a restored row keeps its node and old hostname where it was there, gets the exported node where it was not, and the status of its flag |
| `HostingLaws.RestoreDemands` | internal/store/sqlite/backups.go:300-430 | a restore is made only from metadata in format 4 of an existing account, all on its node, whose rows still there are its own and under the same website, with exactly one primary domain listed for each website |
| `MetadataRestore.RestoreKeepsOthers` | internal/store/sqlite/backups.go:300-430 | and every row that is not listed as it was |
| `MetadataRestore.OtherAccountsKept` | internal/store/sqlite/backups.go:326-333 | and every row of another account, even when the metadata lists its id |
| `MetadataRestore.RestoreSound` | internal/store/sqlite/backups.go:343-377 | and exactly one primary domain for each website, with the unique indexes intact |
| `MetadataRestore.RestoreWithinLimits` | internal/store/sqlite/backups.go:334-338 | and no counter above its limit that grew, when rows still there have their exported kind |
| `MetadataRestore.DomainCountsExactly` | internal/store/sqlite/backups.go:357-374 | for one domain a counter grows above its limit if and only if an existing row changes to a kind already at its limit |
| `MetadataStore.ExportDistinct` | internal/backups/service.go:346-390 | an export of one state lists no website, domain, database or task twice |
| `ExportLaws.ResourcesExported` | internal/backups/service.go:373-389 | an export has exactly the tasks of the account, whatever their status, and its active databases, each with the columns of its row |
| `ExportLaws.WebsitesExported` | internal/backups/service.go:350-366 | it has exactly the websites of the account, each with exactly its domains, with the columns of their rows |
| `BackupReads.AssembleMetadata` | internal/backups/service.go:346-390 | the loops, with one query for the websites, one for the domains of each, one for the databases and one for the tasks, each of which may find another state, collect what the run model's backup steps do, or fail when a website is gone |
| `BackupReads.SteadyIsExport` | internal/backups/service.go:346-390 | when nothing is written meanwhile the result is the export of that one state, which `ExportLaws` says is complete |
| `ExportLaws.AssembledMeans` | internal/backups/service.go:346-390 | with the store in another state at each query, the result is complete for the state each query saw |
| `ExportLaws.BackupTasks` | internal/backups/service.go:384 | over every run, a finished backup has exactly the tasks that stand at its last query |
| `ExportLaws.BackupDatabases` | internal/backups/service.go:373-383 | it has every database that stood active and unchanged during its queries, and none that never did |
| `ExportLaws.BackupWebsites` | internal/backups/service.go:350-366 | it has exactly the websites that stood at its first query |
| `ExportLaws.BackupDomains` | internal/backups/service.go:350-366 | with each website it has every domain that stood during its queries, and none that never did |
| `MetadataStore.RestoreUnchanged` | internal/store/sqlite/backups.go:300-430 | restoring an export into the unchanged store succeeds and changes nothing but statuses |
| `MetadataTx.Store.RestoreMetadata` | internal/store/sqlite/backups.go:300-430 | the nested loops with their count of primary domains succeed exactly when the model's restore does, and otherwise change nothing |
| `MetadataRuns.StepWithinLimits` | internal/store/sqlite/packages.go:170-196 | in every reachable state no request, job, limit change or restore raises one of the five counters above the limit in force |
| `MetadataRuns.LimitsHold` | internal/store/sqlite/packages.go:170-196 | while the limits of an account stay as they are, no run takes its websites, primary domains, aliases, databases or tasks past them |
| `MetadataRuns.UsageOverRuns` | internal/store/sqlite/websites.go:16-57 | over every run, renames, databases, tasks, backups and restores included, each website has exactly one primary domain, primary usage equals website usage, and the domain check cannot fail after the website check |
| `MetadataRuns.BackupsRestore` | internal/store/sqlite/backups.go:300-430 | over every run a backup finished at any earlier moment, even one whose queries saw the store change, restores its definitions and keeps all other rows, or changes nothing |
| `MetadataRuns.BackupNamesApart` | internal/backups/service.go:346-390 | over every run such a backup lists no website, domain, database, task or hostname twice |
| `MetadataRuns.SharedNameIsRefused` | internal/store/sqlite/backups.go:357-374 | metadata listing no id twice that gives two domains one hostname is restored by no store |
| `Retention.Store.ApplyRetention` | internal/backups/service.go:392-410 | on success the plan keeps exactly its newest artifacts; stopped at any item it has removed the newest expired ones only, and no archive file is ever left without its row |
| `Retention.RetainedExactly` | internal/store/sqlite/queries/backups.sql:115-120 | removing the first expired artifacts leaves the newest ones in order, then the rest |
| `Retention.KeptExactly` | internal/store/sqlite/queries/backups.sql:115-120 | an artifact of the plan is kept if and only if fewer than the number to keep are newer |
| `Retention.OthersRetained` | internal/backups/service.go:392-410 | retention of one plan keeps every row of another |
| `ConfigTx.Atomic` | internal/agent/webserver/nginx/nginx.go:113-244 | a call that returns an error leaves include, links and site files, contents and modes, as they were |
| `ConfigLaws.InstallLeaves` | internal/agent/webserver/nginx/nginx.go:113-175 | a successful install leaves the new contents in the site's file with mode 0644, its link leading there, the include right, all other files and links as before, and the server running the new contents |
| `ConfigLaws.InstallSucceedsExactly` | internal/agent/webserver/nginx/nginx.go:113-175 | it succeeds if and only if include and link are absent or right, the old file can be read, and every step works |
| `ConfigLaws.RemoveLeaves` | internal/agent/webserver/nginx/nginx.go:185-244 | a successful removal leaves no link and nothing loaded, the file gone exactly when asked, all else as before |
| `ConfigLaws.RemoveSucceedsExactly` | internal/agent/webserver/nginx/nginx.go:185-244 | it succeeds if and only if nothing foreign is in the way and every step it needs works |
| `ConfigLaws.FailedLeaves` | internal/agent/webserver/nginx/nginx.go:113-244 | a failed call leaves disk and server as they were, unless a reload that reports a failure has loaded |
| `ConfigLaws.RunsLastInstall` | internal/agent/webserver/nginx/nginx.go:113-244 | over any run whose failed reloads load nothing, the server runs for each site the contents of its last successful install, and nothing after a successful removal |
| `ConfigTx.ConsistentExactly` | internal/agent/webserver/nginx/nginx.go:161-172 | files and loaded configuration stay equal if and only if no failed reload loaded a change that the second reload did not undo |
| `ConfigTx.RunKeepsConsistent` | internal/agent/webserver/nginx/nginx.go:113-244 | over any run of installs, disables and deletes whose failed reloads load nothing, the server runs what include, links and files denote |
| `ConfigTx.RunIsSuccesses` | internal/agent/webserver/nginx/nginx.go:113-244 | over any run the files are what the successful calls alone make of them |
| `ConfigDriver.RestoreUndoes` | internal/agent/configfile/configfile.go:79-90 | restoring a snapshot undoes whatever was done to its path |
| `ConfigDriver.Nginx.Install` | internal/agent/webserver/nginx/nginx.go:113-175 | the three-file change with its rollback has the effect and outcome of the model's install under every fault, of which `ConfigLaws.InstallLeaves` says what it leaves |
| `ConfigDriver.Nginx.Remove` | internal/agent/webserver/nginx/nginx.go:185-244 | disable and delete have the effect and outcome of the model's remove |
| `ConfigDriver.Nginx.EnsureInclude` | internal/agent/webserver/nginx/nginx.go:246-262 | the include is created when absent and refused when it holds anything else |
| `ConfigDriver.Nginx.EnsureLink` | internal/agent/webserver/nginx/nginx.go:429-462 | the link is created when absent and refused when it leads elsewhere |
| `ConfigDriver.PhpFpm.Ensure` | internal/agent/runtime/phpfpm/phpfpm.go:38-83 | the pool file and the loaded pools change together or not at all, except after a failed reload that loaded |
| `ConfigDriver.PhpFpm.Delete` | internal/agent/runtime/phpfpm/phpfpm.go:85-118 | the same for removing a pool; a missing one is already deleted |
| `Worker.HandledKeeps` | internal/jobs/worker.go:89-136 | whatever fails, handling a claimed job keeps its bounds and uses up remaining attempts, and does to the job what the settling and dropping steps of the run models do |
| `Worker.JobWorker.Add` | internal/store/sqlite/jobs.go:14-28 | a created job is queued with no attempt used, and leaves what draining needs of the others as it was |
| `Worker.JobWorker.RunJob` | internal/jobs/worker.go:89-136 | step, handler, completion, retry and failure change the job as the model's handling does |
| `Worker.JobWorker.Drain` | internal/jobs/worker.go:72-87 | draining ends for any handlers and failures, moves no job out of a terminal state, and returns only when nothing is claimable or fewer attempts remain |
| `Worker.JobWorker.RunUntilQuiet` | internal/jobs/worker.go:45-70 | without new jobs the loop ends with nothing claimable, each handler called at most its attempts plus restarts; without lost writes every job is closed with one audit record |
| `Worker.JobWorker.Recover` | internal/store/sqlite/queries/jobs.sql:59-65 | start-up requeues exactly the running jobs and gives back one attempt |
| `JobLaws.RecoverLeaves` | internal/store/sqlite/queries/jobs.sql:59-65 | a running job is queued with one attempt less, any other job stays |
| `JobLaws.CrashCostsNothing` | internal/store/sqlite/queries/jobs.sql:31-65 | a claim cut off by a crash leaves the queue as it would be without the claim |
| `JobLaws.FailsExactly` | internal/jobs/worker.go:89-136 | through any failures and crashes a job fails exactly when its handler has failed as often as it may |
| `JobLaws.CrashesAlone` | internal/jobs/worker.go:45-70 | after any number of crashes a job can be claimed and succeed as if there had been none |
| `JobLaws.HandledLeaves` | internal/jobs/worker.go:89-160 | one handling: the handler runs unless its step could not be recorded, the status follows its answer and the attempts, and a closed job gets its record |
| `Rename.RenameSettlesOnce` | internal/websites/service.go:382-411 | after one accepted rename, whatever its request had read, and any failures, retries, crashes, reads and status writes of other jobs the domain has both names, or the new one, or the old one, and once settled keeps its name; without those writes it is pending, or active or disabled, or in error, and once settled does not change |
| `RenameLaws.RequestLeaves` | internal/store/sqlite/websites.go:233-258 | an accepted rename gives the row its new name with the old one beside it, pending, and queues a job with the name its request had read |
| `RenameLaws.RequestAcceptedExactly` | internal/store/sqlite/websites.go:233-258 | it is accepted if and only if website and domain are settled, and nobody has or awaits the name |
| `RenameLaws.CompletedLeaves` | internal/store/sqlite/queries/websites.sql:110-115 | a completed rename leaves one name and the status of the flag |
| `RenameLaws.FailedLeaves` | internal/websites/service.go:400-411 | a failed one stays as it is, and on its last attempt takes the old name back unless it was taken |
| `RenameLaws.OutOfTurn` | internal/jobs/worker.go:72-136 | the worker makes its steps in their order, and claims only a queued job with an attempt left |
| `RenameLaws.SettlingLeaves` | internal/jobs/worker.go:89-136 | the last write closes the job or queues it again; when it is lost the job stays running |
| `RenameLaws.CrashLeaves` | internal/store/sqlite/queries/jobs.sql:59-65 | a crash keeps the domain and queues the running jobs again, their attempt given back |
| `RenameLaws.RenameGoesThrough` | internal/websites/service.go:382-411 | a rename without a fault ends with the new name alone and its job succeeded on the first attempt |
| `Rename.CompensationIsLast` | internal/websites/service.go:404-407 | the old name comes back only on an attempt after which the worker closes the job |
| `Rename.StuckExactly` | internal/store/sqlite/websites.go:233-258 | a step leaves a pending domain without a job that can settle it if and only if it closes the last job of an unsettled rename, or queues a request that had read another hostname than its transaction finds |
| `Rename.ReadErrorsStrand` | internal/websites/service.go:390-393 | two read errors do so: the job is closed, and the domain keeps both names through every run in which no other job writes it |
| `Rename.StuckStepExactly` | internal/websites/service.go:354-379 | of all steps only a write of another job, or the last write of a job in hand past its check, moves a domain so left |
| `Rename.StuckForever` | internal/websites/service.go:258-282 | once so left, the domain stays exactly as it is through every run of requests, rename jobs, retries, restarts and other domains' writes |
| `Rename.LingersExactly` | internal/websites/service.go:305 | a step leaves a domain out of pending with its old name reserved if and only if another job writes the row while a rename is under way |
| `Rename.OvertakenExactly` | internal/store/sqlite/websites.go:233-258 | the worker is past its check with a job that no longer matches the row if and only if a request was accepted meanwhile, which needs such a lingering row |
| `Rename.OvertakenCompletes` | internal/store/sqlite/queries/websites.sql:110-115 | the job in hand then completes the new rename by the row's id, while the new rename's own job has not started |
| `Rename.CalmRun` | internal/websites/service.go:382-411 | over every run in which no other job writes the row, a domain is pending exactly while it has two names, and the worker past its check holds the job of that rename |
| `Rename.StaleRequestStrands` | internal/store/sqlite/websites.go:233-258 | two overlapping requests do so from a resting domain, with no failure and no job closed early |
| `Rename.FailedRenameIsUndone` | internal/store/sqlite/queries/websites.sql:117-121 | over every run without a metadata restore, a rename that fails on its last attempt ends with the old name, which no other domain took meanwhile, and a closed job |
| `Rename.RestoredNameStrands` | internal/websites/service.go:404-407 | a metadata restore that takes the old name makes the compensation fail: both attempts pass and the domain keeps both names through every run in which no other job writes it |
| `Rename.NamesApartExactly` | internal/store/sqlite/queries/websites.sql:1-6 | the old name of a pending domain stays free unless a metadata restore takes it |
| `RenameService.Service.PrepareRename` | internal/websites/service.go:258-276 | the request up to its transaction is the model's read step, and its payload holds the hostname read here |
| `RenameService.Service.QueueRename` | internal/store/sqlite/websites.go:233-258 | the transaction is the model's queue step: it checks the row as it is now and stores the payload made from the row as it was |
| `RenameService.Service.ProvisionRename` | internal/websites/service.go:382-411 | the handler leaves the domain as the run model's steps do |

## Left out

Assumptions of the model:

- An agent call takes effect before it returns or is lost; a call that outlives a restart of the control plane and is
  applied later is not modelled.
- `Snapshot.Restore`, link restoration and include removal succeed once a rollback has begun.
- One worker runs all jobs in turn, so while it reads the metadata of a backup only requests write to the store.
- The node's users do not change: an account's uid, gid and home are fixed.
- The library codecs (JSON, tar, gzip, SHA-256, Argon2, IDNA, IP parsing, cron) are parameters with stated laws; text is
  bytes, and quoting is modelled in full for ASCII only, other characters pass through.
- A home directory, a database dump and an archive do not change while they are read, and the archive read by the
  restore is the one that was inspected.
- Identifiers and job ids are new when they are drawn; rows are listed in any order where the query does not matter.
- Domain, record and user names are compared as stored; the columns that ignore case hold normal, lower-case text only.

Not modelled:

- `ConfigTx.RunKeepsConsistent`: assumes that a failed reload loads nothing, `ConfigTx.ConsistentExactly` says what happens otherwise.
- `DnsOutcome.RestingZoneIsServed`: assumes the guards of `DnsConverge.Guarded`; `DnsGuards` proves each of them exact for one step and every provider state, `DnsStale` and `DnsRaces` say what follows where it fails.
- `MetadataRestore.RestoreWithinLimits`: assumes that rows keep their kind, `MetadataRuns.StepWithinLimits` proves it for all exports of a run.
- `Quoting.UnquoteQuote`: is about the quoting of ASCII; characters above it pass through, the escapes for unprintable ones are not modelled.
- `Quoting.QuoteLength`: bounds the same model, so nothing is said about text above ASCII.
- `DnsService.ValidateRecordSets`: takes the outcome of the zone identity check as a parameter.
- `MetadataTx.Store.PrepareLimits`: has natural limits, so no negative ones to refuse, and not those of database users, backups and FTP logins.
- `Worker.JobWorker.Drain`: a claim that fails with a store error, after which the loop pauses, is not modelled.
- `Worker.JobWorker.RunUntilQuiet`: leaves out the same pause, and the waiting for new jobs.
- `ArchiveRestore.Agent.Restore`: a failure inside one member leaves nothing of that member, while the program may leave a new parent directory.
- Zone creation and deletion, account deletion and the cascades they start.
- The deletion of a domain or its website while a rename is pending, and the queueing of an enable or disable, of which `Rename` has the status its job writes.
- Several zones, nodes, or plans at once: rows of other zones never meet, and each machine has one worker.
- Rendering of nginx and PHP-FPM files, the panel site, certificates, and the creation of configuration directories.
- Staging of database dumps, installation of the finished archive file and the disk layout of backups.
- The field checks of restored metadata, which look at one value at a time, and the reconciliation calls after it.
- Backup plans, their schedule and retention limits, database users and their grants.
- Sessions, roles, access checks, pagination, HTTP handlers, transport, the web frontend.
