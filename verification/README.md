# kblocker in Dafny

kblocker is a Linux kernel module that blocks sites for a timed session which only a key or the timer can
end, with a Go tool that starts sessions on a weekly schedule and keeps a history of them, and a small
application that shows schedule and allowlist. This project models the parts of it that can go wrong
without anybody noticing, and proves what they are for. `dafny verify dfyconfig.toml` checks all of it.

How the pieces fit:

- **Session.** `Session` is the state machine: fields, clock and the two files, one function per step taken
  under `kb_lock`, plus the clock moving on, a crash with the reboot after it, and unloading. The class in
  `SessionObject` updates the same fields step by step, as the C code does, and each of its methods is proved
  to perform that step. `SessionInvariant` says what every step keeps, `SessionRuns` what holds over whole
  runs with crashes in them, `SessionEnds` what ends a session of either kind and when, `SessionWrites` what the
  control files answer and store, `SessionHosts` and `SessionStale` what becomes of the hosts file meanwhile, and
  `SessionPackets` what all this means for traffic.
- **State file.** `StateFile` prints and reads the session record; `StateRoundTrip` and `StateWindows` prove
  that reading undoes printing and that the two read windows lose nothing, `StateFront` and `StateCut` what is
  left of a file that was cut off; `StateWriter` holds the loops, those of the list files included, and
  `StoredLists` says what these make of any text. `Remaining` is the log of remaining times, `Keys` the key as hex
  text, `Domains` domain names, `Spelling` the ways to write them, `Allowlist` and `Platform` addresses and
  networks, `Bits` and `Strings` what these rest on.
- **Files under protection.** `HostsFile` rewrites the hosts file, `HostsLines` tells its contents line by line,
  `Protection` is the table of protected inodes, and `Hooks` is its teardown as a concurrent protocol: per-thread
  phases against the program counter of the thread that removes the hooks; `HooksProgress` proves that it gets
  where it is meant to get.
- **Packets.** `Sni` reads the server name out of a ClientHello, `Netfilter` decides on packets, and `Drops`
  gives the grounds for that decision on arbitrary bytes.
- **Schedule and application.** `Schedule` is the scheduler, `History` the history tracker, `GuiTime` and
  `GuiNet` the application's own versions of the schedule and allowlist rules.

A byte is an integer below 256. In the module, text is a sequence of characters standing for bytes; in the
scheduler and the application it is a sequence of characters. SHA-256 is a function about
which nothing is assumed: the claims are about hashes, so no collision argument is needed. IPv6 text is a pair
of functions of which `Platform.Platform.Valid` says what is used: they are inverse, the text has at most 45
characters, all of them hexadecimal digits, colons or dots, and is never IPv4 text. Such functions exist
(`Platform.AssumptionHolds`).

What proving turned up, where code and expectation part:

- The windowed read of the state file equals a full scan because every saved time is positive; the module
  never saves zero, and the model's files have only such values (`StateWindows.TimesValid`).
- Clearing the hosts file restores the user's bytes only while the file with the block in it stays within the
  1 MiB the module is willing to read: a file just below that size can be updated but not cleared
  (`HostsFile.ClearRestoresIff`; `HostsFile.ClearCanFail` is one).
- The scheduler compares its remembered key after trimming blanks, but not the key it compares with. A block
  whose id begins with a blank, which validation accepts, is started again each time it is lifted
  (`Schedule.StartedAgainIff`; `Schedule.BlankIdStartsTwice` is a schedule and two ticks).
- The application announces "the open window that ends last, matching what the scheduler picks" (gui/src/lib/time.ts:72).
  Of several windows ending together it takes the one begun first, the scheduler the one listed first
  (`GuiTime.ActiveAgrees`, `GuiTime.ActiveCanDiffer`).
- The documentation says unloading takes the key (README.md:24, docs/commands.md:11). The module itself asks
  for no key and only panics on an unload while a session is enabled (src/main.c:516-530): in every reachable
  state an unload goes through exactly when nothing is enabled (`SessionRuns.UnloadIff`), also after a locked
  session has run out (`SessionRuns.UnloadWithoutKey`).
- A session without PGP is not saved, so a crash leaves its block in the hosts file with nothing enabled
  (`SessionStale.StaleIsReached`). That is the only way such a block comes about
  (`SessionStale.NeverStaleIff`), and what takes it away is an accepted write to `enabled` (0 included) or to
  `disable`, or the key written to `unblock` (`SessionStale.StaleStep`).
- The record buffer is computed for IPv6 texts of up to 40 characters, but addresses with an embedded IPv4 part
  (ISATAP) print longer. A record with enough of them is cut off, and a reboot then loses lists
  (`StateCut.FullListsLost`); it loses none exactly when the record fits (`StateCut.RestoredIffFits`). The lock
  itself does not depend on it (`SessionRuns.LockSafety`).
- Given that a caller which loaded a replaced table stays in its read-side section until it has been counted,
  a hook always finds its slot, so the `-EBUSY` of src/file_protection.c:231 and 251 is never returned
  (`Hooks.RunsAreSafe`).

## Model

| member | source | states |
|---|---|---|
| SessionRuns.LockSafety | src/state.c:277-370 | over any run of writes, key reads, timer work, clock advances, crashes and reloads, a locked session stays locked exactly as long as no step in it is authorised to end it, and all that time it keeps its key hash and, if its record fits the buffer, its lists |
| SessionRuns.ListsSurviveIff | src/state.c:116-154 | a crash right after locking brings the lists back iff the session's record fits the buffer |
| SessionRuns.LockedStep | src/state.c:269-370 | one step ends a locked session iff it presents a 16-byte key hashing to the session's hash, or is the timer once boot time has reached the expiry; otherwise the hash and, if the record fits, the lists are unchanged, and an ended session leaves no state file |
| SessionRuns.UnlockedStep | src/state.c:323-346 | a session is locked only by an accepted write to `enabled` with PGP armed, for 1 to the maximum of seconds, with the hash of the fresh key and the lists of that moment |
| SessionRuns.EndedStaysEnded | src/state.c:557-628 | after a session has ended, no sequence of steps without a new enable locks one again, and after a crash or reload nothing is enabled at all |
| SessionRuns.EnableShowsKey | src/key.c:118-145 | right after a PGP enable, the next key read shows the very key whose hash is the session's |
| SessionRuns.KeyShownKeepsWorking | src/key.c:66-145 | the text that read shows, with or without its newline, written to `disable` or `unblock` at any later point of the session and after any number of restores, is accepted and ends it |
| SessionRuns.KeyReadableAtMostOnce | src/key.c:118-145 | after the first read, every later read of the session shows `restored` if there has been a crash or reload and `encrypted` if not, and neither key buffer holds a key |
| SessionRuns.ConsumedRun | src/state.c:218-240 | once the one-shot key has been read it stays read, and both key buffers stay zero, through every run in which the session lasts |
| SessionRuns.RestoredIff | src/state.c:557-628 | a locked session counts as restored exactly from its first crash or reload on |
| SessionRuns.TimeConserved | src/state.c:301-370 | for a session whose record fits: time enabled over all boots plus time left equals the session's length plus, per crash, the time since its last save; fewer than the save interval of timer runs lie between saves; a session the timer may end has been enabled for at least its length |
| SessionRuns.LossBounded | src/state.c:189-202 | with the timer never more than `delay` late, each crash costs at most sixty delays |
| SessionRuns.TimerEndsOnTime | src/state.c:348-370 | both bounds together, for a session whose record fits: with the timer never more than `delay` late, a session the timer ends has run at least its seconds and less than those plus sixty delays per crash plus one delay |
| SessionRuns.LockedIsReached | src/state.c:323-346 | a locked session with its key unread and its record whole on disk is reached from a first boot by arming PGP and enabling, so the results above speak of something |
| SessionRuns.UnloadIff | src/main.c:516-530 | in every state of every run an unload goes through iff nothing is enabled; no key enters into it |
| SessionRuns.UnloadOfLocked | src/main.c:516-530 | while no step authorised to end a locked session has been taken, an unload of it panics |
| SessionRuns.UnloadWithoutKey | src/main.c:516-530 | a run in which a locked session runs out and the module can then be unloaded although no key was ever presented |
| SessionEnds.EnabledStep | src/state.c:277-370 | any session, PGP or not, survives a step iff the step is none of these: a write of 0 or to `disable` without PGP, its key written to `disable` or `unblock`, the timer once boot time has reached the expiry, a crash or unload without PGP; what a write or the timer ends is lifted from the hosts file, the protection and the state file, and otherwise lists, expiry and keys are carried on |
| SessionEnds.DisabledStep | src/state.c:301-346 | with nothing enabled, only an accepted length written to `enabled` begins a session, with that expiry, the hash of the fresh key, the present lists and their domains in the hosts file; without PGP the key stays readable |
| SessionEnds.TimerEndsAny | src/state.c:348-370 | in every state with anything enabled, PGP or not, the timer run ends the session iff boot time has reached its expiry, and otherwise carries it on |
| SessionEnds.SessionLastsIff | src/state.c:277-370 | over any run, a session of either kind stays enabled throughout iff no step of the run is one that ends it |
| SessionEnds.LastsItsTime | src/state.c:301-370 | a session of S seconds of either kind, from its start on, through any steps but ending writes, crashes and reloads: enabled throughout iff every timer run comes before S seconds have passed |
| SessionEnds.StaysOff | src/state.c:557-628 | with nothing enabled, nothing is until a length is accepted by `enabled`, whatever is written, read or crashed |
| SessionEnds.PlainKeyWorks | src/key.c:66-145 | throughout a session without PGP every reading shows the key it was given, without changing anything; that text written to `unblock`, and anything written to `disable`, ends it |
| SessionEnds.BootKeyWorks | src/main.c:463-500 | the key of a first boot is shown, and with it `unblock` lifts everything |
| SessionEnds.UnblockForgets | src/key.c:66-88 | an accepted `unblock` zeroes key and hash and allows unloading |
| SessionEnds.DisableReplaces | src/key.c:90-116 | an accepted `disable` with PGP makes a new key, which the next reading shows |
| SessionWrites.OnlyEndingWrites | src/main.c:175-390 | during a session every write to every file is refused and changes nothing, except exactly those that end it, which are accepted |
| SessionWrites.RefusalSays | src/main.c:175-390 | a refusal is EPERM iff what was written was well formed, ERANGE iff it was a length above the maximum, EINVAL otherwise |
| SessionWrites.DomainsWritten | src/main.c:298-343 | with nothing enabled, a write of domains is refused iff some line that is neither blank nor a comment is no domain or there are more than 64 such lines; otherwise the list becomes what those lines stand for, in order, and nothing else changes |
| SessionWrites.IpsWritten | src/main.c:233-284 | with nothing enabled, a write of addresses is accepted, stores the first addresses of either kind that fit, in order, and ignores all other lines |
| SessionWrites.AllowedWritten | src/main.c:351-390 | with nothing enabled, a write of networks is refused iff some token that counts is no network or there are more than 64 of a kind; otherwise exactly these are stored, in order |
| SessionWrites.PgpWritten | src/key.c:153-185 | with nothing enabled, PGP is armed or disarmed as written, and arming leaves no key readable |
| SessionWrites.SetupBegins | src/main.c:175-390 | from any state with nothing enabled: writing the three lists, PGP and a length, in that order, begins a session with exactly the domains and networks written, the addresses that fit, and these domains in the hosts file |
| SessionPackets.LockedSessionBlocks | src/netfilter.c:253-266 | through any run without an authorised step, a locked session whose record fits drops an IPv4 packet with a ClientHello iff its destination was not allowed when the session began and was blocked then, or its server name is, or is under, a domain blocked then |
| SessionPackets.LockedSessionBlocks6 | src/netfilter.c:253-266 | the same for IPv6 |
| SessionPackets.RunningSessionBlocks | src/netfilter.c:253-266 | as long as no step ends it, a session of either kind (a locked one if its record fits) drops exactly the packets, of any family and with any bytes, that it dropped when it began |
| SessionPackets.NothingEnabledPasses | src/netfilter.c:253-266 | with nothing enabled no packet of any family is dropped, in any later state until a session is begun, crashes and reloads included |
| SessionPackets.EndedSessionPasses | src/netfilter.c:253-266 | after any step that ends a session, and any further steps that begin none, no packet of any family is dropped |
| Drops.DroppedIff | src/netfilter.c:133-266 | for arbitrary bytes of any family: a packet is dropped iff something is enabled, its destination is not allowed, and that is a blocked address, or it is no later fragment and carries a TCP segment whose first record opens a ClientHello for a listed name, or a UDP datagram to port 443 while any domain is blocked |
| Drops.DestinationText | src/netfilter.c:185-200 | the destination of an IPv4 packet is the address whose dotted text has bytes 16 to 19 of its header |
| Drops.TcpDroppedIff | src/netfilter.c:133-170 | for arbitrary bytes the TCP check drops iff a TCP header without RST lies there and behind it, complete within the first record, the opening of a ClientHello that names a listed site |
| SessionInvariant.RunKeeps | src/state.c:218-266 | the invariant (the debug build's checks, both keys hash to the stored hash, a locked session's file begins with its hash and some time, any other session leaves none) holds in every state of every run |
| SessionInvariant.StepKeeps | src/state.c:218-266 | every step keeps the invariant |
| SessionInvariant.InitialInv | src/main.c:463-500 | a first boot satisfies it |
| SessionInvariant.CrashKeepsLocked | src/state.c:557-628 | crash and reboot, even with the append under way cut off, bring every locked session back locked, with its hash and some time to run |
| SessionInvariant.CrashRestores | src/state.c:557-628 | and one whose record fits with its lists too, and exactly the time of the last complete record, which is no less than what was left |
| StateFront.FrontedRestores | src/state.c:579-619 | any file that begins with a session's first three lines, whatever was cut off or appended behind them, restores its hash and a positive time |
| StateFront.FirstLines | src/state.c:133-134 | what a locked session leaves on disk begins with its time, its hash in hex and the PGP flag, one line each, whatever its lists |
| SessionInvariant.AnyFileBoots | src/state.c:557-628 | whatever bytes the state file holds, the module comes up with consistent flags, keys and lists, and a session only as a restored, PGP-locked one |
| SessionInvariant.AppendRecorded | src/state.c:189-202 | appending a record makes its value the saved time and keeps hash and lists |
| SessionHosts.RunHostsHold | src/file_protection.c:105-193 | over whole session runs, whatever the sizes, the hosts file is the user's text in one of three forms; if that text leaves room for a full block within the 1 MiB the module reads, a running session's own block is always there |
| SessionHosts.StepMove | src/state.c:291-320 | a step leaves the hosts file alone, clears it and leaves nothing enabled, or writes the block of the lists it has just started |
| SessionStale.StaleStep | src/state.c:277-320 | when the user's text leaves room for a block: after a step a block stands in the hosts file with nothing enabled iff the step was a crash or unload of a session without PGP that blocks domains, or such a block stood there before and the step was neither an accepted write to `enabled` or `disable` nor the key written to `unblock` |
| SessionStale.NeverStaleIff | src/state.c:277-320 | no state of a run has such a block iff no step of the run is such a crash or unload |
| SessionStale.StaleIsReached | src/state.c:301-320 | a run from a first boot that ends with one: a domain stored, a session without PGP, a power loss |
| SessionObject.Blocker.EnabledStore | src/main.c:175-211 | the handler on the global fields performs exactly the machine's step and keeps the invariant |
| SessionObject.Blocker.UnblockStore | src/key.c:66-88 | the same for `unblock` |
| SessionObject.Blocker.DisableStore | src/key.c:90-116 | the same for `disable` |
| SessionObject.Blocker.UnloadKeyShow | src/key.c:118-145 | the same for reading `key` |
| SessionObject.Blocker.PgpActiveStore | src/key.c:153-185 | the same for `pgp_active` |
| SessionObject.Blocker.BlockedDomainsStore | src/main.c:298-343 | the same for the domain list: validated completely before the live list changes; `SessionWrites.DomainsWritten` says which list that is |
| SessionObject.Blocker.BlockedIpsStore | src/main.c:233-284 | the same for the address list |
| SessionObject.Blocker.AllowedIpsStore | src/main.c:351-390 | the same for the allowlist |
| SessionObject.Blocker.Expire | src/state.c:348-370 | the timer run performs the machine's step; of any session, PGP or not, it leaves nothing enabled iff boot time has reached the expiry |
| SessionObject.Blocker.Enable | src/state.c:323-346 | enable_blocking, the key going to the one-shot buffer when PGP is armed |
| SessionObject.Blocker.Start | src/state.c:301-320 | start_session: every field, the hosts file and the state file afterwards |
| SessionObject.Blocker.Disable | src/state.c:291-299 | disable_blocking: every field and both files afterwards |
| SessionObject.Blocker.TryRestore | src/state.c:557-628 | try_restore_state_from_disk: the lists in any case, a session only with a good hash and time left |
| SessionObject.Blocker.Reboot | src/state.c:524-549 | crash and boot: memory lost, files kept |
| SessionObject.Blocker.UnloadAndLoad | src/main.c:516-530 | unloading panics while enabled; otherwise the state file goes first |
| SessionObject.Blocker.constructor | src/main.c:463-500 | loading the module on a machine where nothing has run |
| StateWindows.RestoreRoundTrip | src/state.c:557-619 | restoring what a session wrote, with any number of appended records and a cut-off last one, yields the same lists, hash and time left |
| StateWindows.WindowsRefineFullScan | src/state.c:579-599 | reading the last 128 bytes, then the first 256 KiB, gives what a scan of the whole file would: the last complete record |
| StateWindows.FullScan | src/parse.c:187-200 | that scan gives the last appended time, or the header's when none was appended |
| StateWindows.HeaderFits | src/state.c:116-154 | full lists fit the buffer when no IPv6 address prints longer than 39 characters |
| StateWindows.HeaderFitsHead | src/state.c:33-36 | every record fits the 256 KiB head with room for a torn append, whatever its addresses |
| StateCut.RestoredIffFits | src/state.c:116-154 | restoring what a session wrote gives its lists back iff the record fits the buffer; a longer one is cut off and loses addresses or allowlist |
| StateCut.FullListsLost | src/state.c:116-154 | lists within every limit of the module, their IPv6 addresses printed with 44 characters, whose record does not fit |
| StateRoundTrip.ListsRoundTrip | src/state.c:404-513 | domains, addresses and allowlist read back as printed, whatever follows them: no field's tag occurs in another field |
| StateRoundTrip.HashRoundTrip | src/state.c:589-595 | the key hash reads back as printed, whatever follows the first three lines |
| StateWriter.WriteSession | src/state.c:119-154 | for any lists the buffer-filling loops produce the record, cut off exactly where the buffer ends |
| StateWriter.RestoreRecord | src/state.c:557-619 | the reading loops find exactly what the specification says, and lists within bounds |
| StateWriter.RestoredListsValid | src/state.c:404-513 | from any bytes at all, restored lists are within bounds and every domain is normal |
| StateWriter.RestoreDomainsLoop | src/state.c:404-433 | the token loop, with its limit |
| StateWriter.RestoreIpsLoop | src/state.c:435-477 | the token loop, IPv6 tried first, excess ignored |
| StateWriter.RestoreAllowedLoop | src/state.c:479-513 | all or nothing: a malformed field leaves the allowlist alone |
| StateWriter.ParseDomainsLoop | src/main.c:314-329 | the line loop of the domain store computes the list that `StoredLists.ParseDomainsIs` characterises |
| StateWriter.StoredDomainsNormal | src/main.c:314-329 | what it accepts is at most 64 normal domains |
| StateWriter.ParseIpsLoop | src/main.c:252-266 | the line loop of the address store |
| StoredLists.ParseDomainsIs | src/main.c:314-329 | the list read from any text: the domains its lines stand for, in order, blanks and comments left out; none iff a line that counts is no domain or there are more than 64 |
| StoredLists.DomainsRoundTrip | src/main.c:314-329 | up to 64 normal domains, one per line, with blank and comment lines anywhere between, are read as exactly these, in order |
| StoredLists.LineDomainIff | src/main.c:314-323 | a line stands for a domain iff it spells it: blanks, an optional `*.`, dots, the name in any case, dots, blanks |
| StoredLists.ParseIpsIs | src/main.c:252-266 | the addresses read from any text: of the lines that are IPv6 addresses and of those that are IPv4 addresses, the first that fit, in order |
| StoredLists.ParseAllowedIs | src/main.c:113-129 | the networks read from any text: those of its tokens, in order by kind; none iff a token that counts is no network or there are more than 64 of a kind |
| StoredLists.BareEntry | src/main.c:70-110 | an entry without a slash is a network iff it is an address, and lets through that address alone |
| StoredLists.PrefixEntry | src/main.c:70-110 | one with a slash iff an address and a number no larger than its width stand around it, and lets through exactly the addresses that agree with it in that many bits |
| StoredLists.ParseU8Iff | src/main.c:93-94 | a prefix length is read iff it is a plus sign or none, digits for at most 255, and a newline or none |
| StoredLists.AllowedByText | src/main.c:113-129 | an IPv4 address is allowed after a write iff some token of the text written is a network that lets it through |
| StoredLists.AllowedByText6 | src/main.c:113-129 | the same for IPv6 |
| StoredLists.WholeOctets | src/netfilter.c:79-89 | in dotted notation, prefixes of 8, 16 and 24 bits compare the first one, two and three octets |
| Remaining.LastRemainingScan | src/parse.c:187-200 | the strstr loop with its skips returns the value of the last record that starts a line |
| Remaining.LastRemainingMeans | src/parse.c:187-200 | for every text: the last line-initial `remaining:<digits>` line whose number fits 64 bits, or 0 when there is none |
| Remaining.RecordIff | src/parse.c:168-200 | a complete record is exactly a line that begins with `remaining:`, has digits for a number below 2^64 behind it and ends there |
| Remaining.ParseLineU64 | src/parse.c:168-183 | the digit loop with its overflow test accepts exactly the numbers up to the 64-bit maximum that end their line |
| Remaining.LastOfLogged | src/state.c:189-202 | after any text ending a line, an appended record is the last one found, cut-off successors or not |
| Keys.HexDecode | src/parse.c:144-165 | in-place decoding of pairs of hex digits, failing at the first character that is none, the end included |
| Keys.HexRoundTrip | src/parse.c:152-165 | decoding undoes printing, whatever follows the digits |
| Keys.CheckKey | src/key.c:49-64 | malformed, mismatch or match, by the 32 digits before an optional newline |
| Keys.KeyTextRoundTrip | src/key.c:118-145 | the printed key reads back as itself, with its newline and without |
| Keys.KeyOfTextIff | src/key.c:49-64 | a text is accepted as a key iff, but for the case of its letters, it is the key's printed text with or without the newline |
| SessionObject.PrintKey | src/key.c:125-142 | the printing loop |
| Domains.NormalizeInPlace | src/parse.c:113-142 | trimming, cutting and lower-casing in the caller's buffer leaves, as the C string at the returned place, exactly the normal form, and touches nothing before it |
| Domains.NormalizeYieldsNormal | src/parse.c:113-142 | what is accepted is short, lower-case, of domain characters, without a dot at either end |
| Domains.NormalIffFixpoint | src/parse.c:113-142 | stored domains are exactly the fixpoints of normalisation |
| Spelling.NormalizeIff | src/parse.c:113-142 | any text is accepted as a domain iff it spells it: blanks, an optional `*.`, dots, the name in any case, dots, blanks, in this order |
| Domains.DomainMatches | src/parse.c:101-111 | the comparison from the end finds exactly the blocked name and the names below it, ignoring ASCII case |
| Domains.DomainListContains | src/netfilter.c:107-121 | trailing dots aside, some listed domain is the name or above it |
| Spelling.UnderIff | src/parse.c:101-111 | a name counts as the blocked one or below it iff its labels end with that one's labels, case aside: a name that merely ends in the same letters does not |
| Spelling.ListedIff | src/netfilter.c:107-121 | a host name, with any dots behind it, is listed iff its labels end with those of some listed domain |
| Sni.FoundIffOpening | src/parse.c:50-99 | for every sequence of bytes: a name is returned iff the bytes begin with a ClientHello opening whose first server_name has that name and fits the buffer |
| Sni.OpeningYieldsName | src/parse.c:50-99 | every well-formed opening yields exactly its name, whatever follows |
| Sni.NameComesFromOpening | src/parse.c:50-99 | a returned name lies in a well-formed opening at the front of the bytes |
| Sni.PrefixMonotone | src/parse.c:50-99 | more bytes never change a name already found |
| Sni.TruncationIff | src/parse.c:50-99 | cut-off bytes give the whole name iff they reach the end of its extension, and nothing otherwise |
| Sni.SniExtract | src/parse.c:50-99 | the offset-moving loop terminates, stays inside the bytes, and fills the buffer with the name and a NUL or leaves it alone |
| Netfilter.PacketVerdict | src/netfilter.c:185-215 | an IPv4 packet with a complete ClientHello is dropped iff its destination is not allowed and is blocked or its server name is, or is under, a blocked domain |
| Netfilter.PacketVerdict6 | src/netfilter.c:217-251 | the same for an IPv6 packet whose TCP header has been located |
| Netfilter.HookPacket | src/netfilter.c:253-266 | with nothing enabled, and for other families, every packet is accepted; otherwise what the hook of its family says |
| Netfilter.SegmentVerdict | src/netfilter.c:133-170 | a segment with the first k bytes of the record is dropped iff they reach the end of the server_name extension and the name is listed |
| Netfilter.RecordYieldsName | src/parse.c:50-99 | a complete record (section 5.1 of RFC 8446) gives exactly its name |
| Netfilter.InspectTcp | src/netfilter.c:133-170 | the TCP inspection drops iff the first record of the payload names a listed site |
| Netfilter.UdpPacketVerdict | src/netfilter.c:174-215 | an IPv4 packet with a UDP header is dropped, whatever it carries, iff its destination is not allowed and is blocked or, while any domain is blocked, its port is 443 |
| Netfilter.SniMatchesBlocked | src/netfilter.c:124-130 | extraction and matching through the 256-byte buffer, the name read as a C string |
| Netfilter.HookV4 | src/netfilter.c:185-215 | the order of the IPv4 checks: allowed, blocked, fragments, transport |
| Netfilter.HookV6 | src/netfilter.c:217-251 | the same for IPv6, with the transport header already located |
| Netfilter.IsIpBlocked | src/netfilter.c:43-77 | the search loop over the address list |
| Netfilter.IsIpv6Allowed | src/netfilter.c:92-103 | the search loop over the IPv6 allowlist |
| Allowlist.IsIpAllowed | src/netfilter.c:79-89 | the search loop over the IPv4 allowlist |
| Allowlist.AllowedRoundTrip | src/main.c:113-147 | parsing the printed allowlist gives the same networks: the bit count of a mask is its prefix length |
| Allowlist.Accepts4IffInRange | src/netfilter.c:79-89 | the mask test accepts exactly the addresses from the network's first to its last |
| Allowlist.Accepts6IffInRange | src/netfilter.c:92-103 | the same for the IPv6 prefix test |
| Allowlist.ParseAllowedLoop | src/main.c:113-129 | the token loop: blanks and comments skipped, all or nothing |
| Allowlist.ParseAllowedValid | src/main.c:70-129 | what is accepted is masked and within the limits, so it prints and reads back |
| Platform.DottedRoundTrip | src/main.c:79-82 | IPv4 text reads back as its address |
| Platform.AssumptionHolds | src/main.c:79-84 | there are printing and parsing functions for IPv6 text of which everything assumed is true |
| GuiNet.ShownRangeIsWhatKernelAccepts | gui/src/lib/net.ts:83-98 | the range the application shows is exactly the set of addresses the kernel's mask test accepts |
| GuiNet.ShownRangeIsWhatKernelAccepts6 | gui/src/lib/net.ts:83-98 | the same for IPv6 |
| GuiNet.KernelTakesWhatAppTakes | gui/src/lib/net.ts:60-82 | every IPv4 entry the application accepts, the kernel accepts as the same address and prefix |
| GuiNet.CidrNamesTheSameNetwork | gui/src/lib/net.ts:90-98 | the text the application stores names, for the kernel, the same network as what was typed |
| GuiNet.AppTakesIff | gui/src/lib/net.ts:60-82 | the application accepts as IPv4 entries exactly an address as it is printed, alone or with a slash and one to three digits of at most 32, and shows the range of that many bits |
| HostsFile.RunKeepsUserText | src/file_protection.c:105-193 | after any sequence of updates and clears, whatever the sizes, the file is the user's text (marker-free, NUL-free) untouched, cleared, or without trailing newlines under one block; an operation that finds it too large changes nothing |
| HostsFile.RunKeepsLatest | src/file_protection.c:105-193 | when the user's text leaves room for the block of 64 domains of full length, the file always carries the latest block |
| HostsFile.ApplyIsNext | src/file_protection.c:105-193 | one operation takes each form of the file to the next |
| HostsFile.UpdateIdempotent | src/file_protection.c:133-193 | repeating an update changes nothing |
| HostsFile.ClearRestoresIff | src/file_protection.c:105-131 | clearing gives the user's text back byte for byte iff it ended in one newline and the file with the block is still within the size the module reads |
| HostsFile.ClearCanFail | src/file_protection.c:105-131 | a text of exactly that size, ending in one newline, is updated and then cannot be cleared |
| HostsFile.BlockSize | src/parse.c:216-224 | the computed size is the length of the block, whose lines `HostsLines.UpdatedLines` gives |
| HostsFile.Format | src/parse.c:231-264 | the formatter fills a long enough buffer with that block, a short one with its prefix, and never writes beyond it |
| HostsFile.BaseLen | src/parse.c:202-214 | the base is what precedes the marker, without newlines at its end |
| HostsFile.UpdateHosts | src/file_protection.c:133-193 | the file afterwards, written at the base and cut off behind the block; `HostsLines.UpdatedLines` says which lines these are |
| HostsFile.ClearHosts | src/file_protection.c:105-131 | the file afterwards; untouched without a marker |
| HostsLines.UpdatedLines | src/parse.c:231-264 | line by line, an updated file is the user's lines, an empty one, the marker, then for each domain in the order of the list `0.0.0.0 d`, `:: d`, `0.0.0.0 www.d` and `:: www.d`, and an empty line |
| HostsLines.NamesBlocked | src/parse.c:248-261 | below the user's lines a name is sent to 0.0.0.0 iff it is a listed domain or "www." and one |
| HostsLines.RunningSessionLines | src/state.c:301-320 | in every state of every run in which a session blocks domains, the hosts file consists of just these lines for the session's domains, if the user's text leaves room for a block |
| Hooks.RunsAreSafe | src/file_protection.c:195-411 | in every interleaving of path walks, hook bodies and the installing and removing thread: no caller holds a freed table, every search finds its slot, no hook uses a cleared slot, and a finished removal leaves nothing behind |
| Hooks.StepKeeps | src/file_protection.c:205-411 | each shared-memory step keeps the invariant behind that |
| Hooks.InvIsSafe | src/file_protection.c:205-258 | the invariant implies those three properties of every thread |
| Hooks.HookAnswers | src/file_protection.c:205-258 | a hook refuses a change exactly while protection is on, otherwise does what the file system would do without it (its own operation for that very inode, or the generic one where it has none), and never reports the inode gone |
| Hooks.InitialInv | src/file_protection.c:36-50 | the freshly loaded module satisfies it |
| Hooks.EndGraceKeeps | src/file_protection.c:387-391 | once the first grace period is over, nobody can still call through a copy |
| Hooks.DrainedKeeps | src/file_protection.c:389-391 | once the counter has been read as zero, no hook body runs and none can start |
| HooksProgress.ChangeIsRefused | src/file_protection.c:205-258 | from any state of the protocol with protection on, a thread outside that goes about changing an inode whose table is a copy gets, by steps of its own alone, into a hook that has found the inode's slot and refuses |
| HooksProgress.RemovalCanFinish | src/file_protection.c:364-411 | from every state of every run, whoever is inside and whatever the remover is doing, there are steps that end with protection off, no copy in use and no slot filled: neither grace period nor drain ever blocks for good |
| Protection.UndoneExactly | src/file_protection.c:274-411 | after enable, any number of re-checks with the paths resolving to changing inodes, others changing operations and flags in between, and disable: all slots are empty, every reference is returned, and every inode others left alone has its operations and flags back |
| Protection.ReleasedAt | src/file_protection.c:364-411 | on any inode with a slot, others' doings included, disabling drops one reference, takes back the flag if this module has ever set it, and the copy if the inode still points to it |
| Protection.NoCopyLeft | src/file_protection.c:364-411 | no inode is left pointing to one of our copies, whatever operations of their own others installed meanwhile |
| Protection.RecheckProtects | src/file_protection.c:274-336 | whatever others did to it, an inode a path resolves to at a re-check has its slot, its copy and its flag afterwards, unless all slots are taken by other inodes |
| Protection.OthersStand | src/file_protection.c:274-336 | until the next re-check, operations and flags that others give an inode stand |
| Protection.RunKeeps | src/file_protection.c:274-336 | throughout, filled slots form a prefix, an inode has at most one, and each slot remembers exactly what it changed |
| Protection.UnprotectUndoes | src/file_protection.c:364-411 | from any such state, disabling restores an inode |
| Protection.ProtectHolds | src/file_protection.c:274-320 | one protect_inode leaves its inode protected or turned away for lack of slots, and gives no slot up |
| Protection.ProtectAgain | src/file_protection.c:281-286 | an inode with a slot is pointed back at its copy, and a flag lost meanwhile is set again and remembered as ours |
| Protection.Protector.FindInstall | src/file_protection.c:195-203 | the search loop |
| Protection.Protector.ProtectInode | src/file_protection.c:274-320 | the in-place change of slots and inode is the specified one |
| Protection.Protector.ProtectTargets | src/file_protection.c:323-336 | one pass over the targets |
| Protection.Protector.Recheck | src/file_protection.c:338-348 | nothing happens once protection is off |
| Protection.Protector.Disable | src/file_protection.c:364-411 | both loops together are the specified undoing |
| Schedule.AtMostOnce | cmd/kblockerctl/schedule.go:354-394 | for any schedule and any ticks with a clock that does not go back, no window occurrence is started twice with one remembered key, provided its id does not begin with a blank |
| Schedule.AlwaysAtMostOnceIff | cmd/kblockerctl/schedule.go:371-375 | a schedule has that property in all its runs iff no window it ever chooses has an id beginning with a blank |
| Schedule.NoBlankIdsSuffice | cmd/kblockerctl/schedule.go:371-375 | a schedule without enabled blocks of such ids has it |
| Schedule.BlankIdStartsTwice | cmd/kblockerctl/schedule.go:371-375 | a schedule that validation accepts, and two ticks at one instant that start the same window |
| Schedule.StampsExist | cmd/kblockerctl/schedule.go:46-49 | there are texts of starts of which everything assumed is true |
| Schedule.StartedAgainIff | cmd/kblockerctl/schedule.go:371-375 | a window just started and lifted is started again iff its id begins with a blank |
| Schedule.SkippedOnlyIfStarted | cmd/kblockerctl/schedule.go:354-394 | for any schedule: with the module ready and nothing blocked, the active window is started unless an earlier tick of the run started it or its key was remembered before the run |
| Schedule.SameStartSameChoice | cmd/kblockerctl/schedule.go:156-171 | of the windows that start at one instant, at most one is ever chosen |
| Schedule.KeyTrimmed | cmd/kblockerctl/schedule.go:371-375 | trimming a remembered key loses blanks at the front of its id and nothing else |
| Schedule.NeverBack | cmd/kblockerctl/schedule.go:156-171 | a window active at two instants is active at every instant between |
| Schedule.ActiveIs | cmd/kblockerctl/schedule.go:156-171 | the active window is the enabled open one that ends last, of those the one listed first |
| Schedule.TwoDaysAreEnough | cmd/kblockerctl/schedule.go:129-153 | today's and yesterday's occurrences are all that contain an instant, of all days |
| Schedule.OneWindowPerBlock | cmd/kblockerctl/schedule.go:129-153 | a block never has two windows open |
| Schedule.TickIs | cmd/kblockerctl/schedule.go:354-394 | a tick starts a block iff the module is there, nothing is blocked, starting works and the active window's key is not the remembered one; it is that window, for whole minutes that end no earlier than it does and less than a minute later; its key is remembered then, and nothing changes otherwise |
| Schedule.KeysDiffer | cmd/kblockerctl/schedule.go:46-49 | different occurrences have different keys: the last `@` separates id and start |
| Schedule.HHMMRoundTrip | cmd/kblockerctl/schedule.go:51-61 | times of day and minutes of the day correspond one to one |
| Schedule.Validate | cmd/kblockerctl/schedule.go:63-94 | nil iff every block is valid and ids are distinct; otherwise the first block at fault, with the first of the checks it fails |
| Schedule.GoodDayIff | cmd/kblockerctl/schedule.go:63-94 | a day passes validation iff it comes around in every week |
| Schedule.ValidBlockOccurs | cmd/kblockerctl/schedule.go:63-94 | so a valid block has a window of some length in every week on each of its days |
| Schedule.WindowsAtLoop | cmd/kblockerctl/schedule.go:129-153 | the loop over the two days |
| Schedule.ActiveWindow | cmd/kblockerctl/schedule.go:156-171 | the nested loops keep the best window so far |
| Schedule.Scheduler.DaemonTick | cmd/kblockerctl/schedule.go:354-394 | the tick does that to the remembered key, and returns the minutes that cover the active window and the block's name, or "Scheduled block" for one without |
| GuiTime.SegmentsMatchScheduler | gui/src/lib/time.ts:34-49 | a minute of a weekday lies in a piece shown for a block iff the scheduler has a window of it open then |
| GuiTime.WeekAddsUp | gui/src/lib/time.ts:34-49 | the segments the seven rows of a week show, for all blocks together, add up to each block's length times its number of days |
| GuiTime.SegmentsInOrder | gui/src/lib/time.ts:48-48 | a day's pieces are in order of start |
| GuiTime.NextIsEarliest | gui/src/lib/time.ts:81-83 | seven days of look-ahead find the earliest later start of all days; nothing found means no enabled block ever starts again |
| GuiTime.ActiveAgrees | gui/src/lib/time.ts:72-79 | application and scheduler agree whether a window is open and when it ends; on the window itself iff, of the open windows that end last, one is both listed first and begun first |
| GuiTime.LongestFirstSuffices | gui/src/lib/time.ts:72-79 | they always agree on a schedule in which, of the blocks ending at the same time of day, the longer are listed first |
| GuiTime.ActiveCanDiffer | gui/src/lib/time.ts:72-79 | a schedule that validation accepts on which they name different windows |
| GuiTime.AroundIs | gui/src/lib/time.ts:57-70 | the list is sorted and holds exactly the occurrences of the days asked for |
| GuiTime.SpansAgree | gui/src/lib/time.ts:20-23 | start and length of every block with well-formed times are the scheduler's |
| GuiTime.FromMinReadBack | gui/src/lib/time.ts:15-18 | any number of minutes, negative ones too, prints as the time of its day |
| GuiTime.SegmentsForDay | gui/src/lib/time.ts:34-49 | the pushing loop and sort |
| GuiTime.OccurrencesAround | gui/src/lib/time.ts:57-70 | the nested pushing loops and sort |
| GuiTime.ActiveOccurrence | gui/src/lib/time.ts:72-79 | the loop that keeps the best occurrence |
| GuiTime.NextOccurrence | gui/src/lib/time.ts:81-83 | the search for the first later start |
| History.EntriesDisjoint | cmd/kblockerctl/history.go:89-132 | for ticks at least five seconds apart and any restarts of the daemon, recorded intervals are non-empty, ordered and disjoint |
| History.OutcomeIs | cmd/kblockerctl/history.go:111-132 | for every session, scheduled or started by hand, watched without a restart: its last sighting decides between completed (at most ten seconds before the timer's end) and unlocked; the entry has the session's first sighting, lock and end, and the first block name given within a minute; a session seen only once, after its timer's end, gives no entry |
| History.TimerIsCompleted | cmd/kblockerctl/history.go:111-132 | with ticks at most ten seconds apart and no restart, a session that ran to its timer is recorded once, as completed, with the end of its timer |
| History.KeyIsUnlocked | cmd/kblockerctl/history.go:111-132 | one ended with at least ten seconds left is recorded once, as unlocked, at the tick that noticed |
| History.Watched | cmd/kblockerctl/history.go:93-109 | what the tracker holds of a running session, the block name included: the first one given within a minute of the first sighting |
| History.StartedBlockIsNamed | cmd/kblockerctl/schedule.go:344-348 | the entry recorded of a session the scheduler started carries its block's name |
| History.PickedUpAfterRestart | cmd/kblockerctl/history.go:75-125 | a session that ends while the daemon is away makes one entry, with its first sighting: completed at the end of its timer if that has passed when the daemon is back, otherwise interrupted at that tick |
| History.OneEntryAcrossRestart | cmd/kblockerctl/history.go:75-132 | one still running after a restart makes one entry, begun when it was first seen and judged by its last sighting |
| History.AbsentModule | cmd/kblockerctl/history.go:89-92 | ticks that find no module change nothing |
| History.HistoryTracker.Observe | cmd/kblockerctl/history.go:89-132 | the method's updates of its fields and files are the specified ones |

## Left out

- File I/O errors, allocation failure and short writes: writes succeed, except that a crash may cut off the record being appended. Crashes fall between steps, not inside the writing of a session record or inside a disable.
- SHA-256, random keys and constant-time comparison: an arbitrary function, keys given with each step, equality.
- IPv6 text conversion by the kernel and by the browser: the assumed pair of functions described above; the application's reading of IPv6 text is therefore not modelled, only its range arithmetic.
- in4_pton beyond plain dotted decimal: IPv4 text is four decimal octets, as the printed form always is.
- Reading of numbers and booleans by kstrtou64 and kstrtobool: a write to `enabled` or `pgp_active` is given as the value read, or none.
- The wall-clock `expiry:` record of older versions in the state file: a file without a `remaining:` record restores no session.
- The debug attribute, module parameters and error paths of module start: only the reboot they simulate is a step of the model.
- The other read-only sysfs files, logging and gpg: they decide nothing.
- Netfilter registration, network namespaces, paged packets and the walk over IPv6 extension headers: a packet is its bytes, and for IPv6 the place of the transport header is given.
- A ClientHello spread over several records or segments: the module inspects the first record of one segment, and so does the model (`Netfilter.SegmentVerdict` says what a cut-off record gives).
- Weak memory order in the inode hooks: each shared access is one atomic step, as the acquire and release pairs and the atomic counter provide.
- Failing to copy a table of operations.
- Time zones, daylight saving and date formatting: days have 1440 minutes, and a start has an arbitrary text that does not end in a blank; only where keys must differ, also one without `@` that tells whole minutes apart.
- The schedule file changing between ticks: runs are of one schedule.
- JSON, the web handlers, systemd, command lines, the Tauri backend and the views: input and output.
- Blocks with times the scheduler cannot parse, in the application's functions: there the original computes with NaN.
- SessionHosts.RunHostsHold: when the user's text leaves less room than a full block takes, it does not say which block a running session has, because the module leaves a file over 1 MiB as it is.
- Sessions that end while another begins between two ticks: the tracker sees them as one, and so does the model.
- SessionRuns.TimeConserved: speaks of sessions whose record fits the buffer. Of others it is proved that they stay locked under their key and what fitting means for their lists, not how much time a crash costs them.
- Hooks.RunsAreSafe: rests on callers staying in their read-side section from loading a table to being counted, as the source's own waiting does; nothing is claimed for callers that do not.
