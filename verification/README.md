# Verified model of the panel's state machines and codecs

This project models, in Dafny, the parts of the hosting panel whose correctness spans many calls, and proves what they
promise over all inputs and all runs. `dafny verify dfyconfig.toml` checks everything.

| file | part of the system |
|---|---|
| Bech32Checksum, Bech32Regroup, Bech32 | the Bech32 encoder of age keys: checksum over GF(32), regrouping of bits, the text and its decoder's view |
| Bandwidth | the checkpointed bandwidth meter and its monthly total |
| Hpm3 | the backup archive's frames: writer, reader, manifest order |
| Fence | the agent's per-resource fences, receipts and replay |
| SortedLines, MailMaps, MailRows | the host-wide mail maps: one pass against a scan per account, and what they hold in terms of the store's rows |
| SendLimitsFile, SendPolicy | the daily send limits: file, parser, counters |
| ExportTree, ExportNames, ExportIds, DataMove, PasswordHashes, Migration | importing an account under another name: rewriting, replacement of ids, data-move plan, password hashes and the import itself |
| Limiter | the sliding-window login limiter |
| ChunkTransfer | file transfer to the agent in chunks |
| Installer | the resumable installer run |
| Uuid7 | UUID version 7 generation and parsing |
| Spf | replacing private addresses in SPF text |
| GoText, SharedTypes | the string functions and the types that several parts share |

Code that updates state is a class or a method with loops, proved against functions of the old state; the properties are
lemmas about those functions and about runs of them. Clocks, random bytes, new ids and the outcome of system calls are parameters;
Every specification function that a method shares with its theorems is pinned by laws in plain terms: fields, literal texts and numbers.
SHA-256 and JSON are arbitrary functions with the stated round trips. Faults and stops are parameters too, so a theorem about a run
holds wherever the run is cut.

Some promises turn out to hold only under a condition, which is proved to be exact, with a case where it fails:

- the meter loses or repeats lines of a log that was truncated and has grown again (`Bandwidth.ReadIsExactIffClean`, `Bandwidth.UnnoticedTruncation`);
- a fence whose record could not be written is forgotten at a restart (`Fence.FenceNeverDecreasesIff`, `Fence.UnwrittenFenceIsForgotten`);
- names that were outside the source but inside the destination are looked for in the wrong place by the data move
  (`ExportNames.FqdnReturnsIff`, `ExportNames.DatabaseReturnsIff`, `ExportNames.NamesThatDoNotReturn`);
- password hashes of mailboxes that share a key are mixed up by an import (`PasswordHashes.HashesReturnIff`, `PasswordHashes.SharedKeyMixesHashes`);
- two senders of one file can leave a mixture of their contents (`ChunkTransfer.CommitIsContentIff`, `ChunkTransfer.InterleavedSendersMix`);
- identifiers stop increasing at the 4097th call of a millisecond (`Uuid7.IncreasingIff`), and `Parse` accepts text that is none
  (`Uuid7.AcceptedIsUuidIff`, `Uuid7.DashesAreAccepted`);
- an archive that ends inside its last frame is read as complete (`Hpm3.EachSucceedsIffAccepted`, `Hpm3.CutFrameIsAccepted`);
- the comment on `IsPrivateIPv4` (internal/netaddr/ip.go, lines 60-61) lists carrier-grade NAT addresses, which the code takes for public
  (`Spf.PrivateAsDocumentedIff`), and a replacement such as an address with a mask can bring a private address in
  (`Spf.NoPrivateLeftIff`, `Spf.MaskedAddressIsNotClean`).

## Model

| member | source | states |
|---|---|---|
| Bech32Checksum.ChecksumIsTheOneThatVerifies | internal/backup/crypto.go:133-142 | For every prefix and every list of symbols, of any length, six five-bit symbols make the BIP 173 remainder 1 exactly when they are the ones computed here |
| Bech32Checksum.ChecksumVerifies | internal/backup/crypto.go:133-142 | The computed symbols are below 32 and always verify |
| Bech32Checksum.BurstChangesRemainder | internal/backup/crypto.go:157-170 | Two lists that differ only inside a window of at most six symbols, anywhere in lists of any length, never have the same remainder |
| Bech32Checksum.OneSymbolChangesRemainder | internal/backup/crypto.go:157-170 | Changing one symbol, anywhere, changes the remainder |
| Bech32Checksum.FoldLinear | internal/backup/crypto.go:157-170 | The whole loop is linear over XOR: the remainder of the differences, started from the difference of the states, is the difference of the remainders |
| Bech32Checksum.DetectionDependsOnErrorPattern | internal/backup/crypto.go:157-170 | Whether an error goes unnoticed depends on the error pattern alone, not on the text |
| Bech32Checksum.StepInjective | internal/backup/crypto.go:159-168 | One step with a fixed symbol is injective on 30-bit states, although it drops the top five bits: the low bits of the generators are independent |
| Bech32Checksum.FoldInjective | internal/backup/crypto.go:157-170 | So are any number of steps |
| Bech32Checksum.FoldUnreduced | internal/backup/crypto.go:157-170 | Up to six symbols can be pulled out of the loop and packed beside the remainder of as many zeros |
| Bech32Checksum.PackedDigits | internal/backup/crypto.go:137-141 | Cutting a 30-bit remainder into six symbols and packing them gives the remainder back |
| Bech32Checksum.Absorb | internal/backup/crypto.go:159-168 | The inner loop over the five generators computes one step |
| Bech32Checksum.Polymod | internal/backup/crypto.go:157-170 | The loop over the values computes the fold of the steps from state 1 |
| Bech32Regroup.BitsPushed | internal/backup/crypto.go:177-178 | Shifting a symbol into the 32-bit accumulator appends its bits to the pending ones, whatever older bits wrap out of it |
| Bech32Regroup.BitsExtracted | internal/backup/crypto.go:180-183 | Taking a group out takes the oldest pending bits and leaves the rest |
| Bech32Regroup.BitsPadded | internal/backup/crypto.go:185-187 | The last group is the pending bits followed by zeros |
| Bech32Regroup.AllBitsInjective | internal/backup/crypto.go:172-189 | Lists of equally many narrow symbols with the same bits are equal |
| Bech32Regroup.ConvertBits | internal/backup/crypto.go:172-189 | For all widths from 1 to 8 and inputs of any length: narrow groups, as many as the bits need; and for symbols that fit the input width, the input's bits in those groups, zero-padded by less than a group, or cut by less than a group |
| Bech32Regroup.RegroupedValue | internal/backup/crypto.go:172-189 | Read as numbers in base 2^to and 2^from, the padded groups are the input shifted left by less than a group |
| Bech32.Regrouped8To5Length | internal/backup/crypto.go:172-189 | Eight to five bits gives exactly the ceiling of 8n/5 symbols |
| Bech32.RegroupBack | internal/backup/crypto.go:172-189 | Regrouping five to eight bits without padding gives back the input and nothing else |
| Bech32.HrpExpand | internal/backup/crypto.go:144-155 | The quotients of the prefix's bytes by 32, a zero, and the remainders, as integers |
| Bech32.ExpansionUnique | internal/backup/crypto.go:144-155 | Nothing else is that expansion |
| Bech32.ComputeChecksum | internal/backup/crypto.go:133-142 | The method computes the checksum the lemmas speak of |
| Bech32.Encode | internal/backup/crypto.go:115-131 | The text is the prefix with capitals made small, the digit one, and the characters of the regrouped data and of its checksum; its length is exact |
| Bech32.FirstValidText | internal/backup/crypto.go:115-131 | The prefix a and no data are written a12uel5l, the first valid text of BIP 173 |
| Bech32.AlphabetIs | internal/backup/crypto.go:111 | Symbols are written with the 32 characters of BIP 173, in its order |
| Bech32.EncodeAgeSecretKey | internal/backup/crypto.go:103-109 | The key begins AGE-SECRET-KEY-1, has no small letters, and lowers to the encoding of the scalar |
| Bech32.DecodesIffEncodes | internal/backup/crypto.go:115-131 | A decoder written from BIP 173's rules (last separator, checksum, regrouping) accepts a text for a prefix and data exactly when the encoder writes it for them |
| Bech32.EncodingInjective | internal/backup/crypto.go:115-131 | One text never encodes two different prefixes or data |
| Bech32.EncodingUnique | internal/backup/crypto.go:115-131 | A prefix and data have one text only |
| Bech32.RegroupedUnique | internal/backup/crypto.go:172-189 | The regrouped symbols are a function of the data |
| Bech32.TypoDecodesToNothing | internal/backup/crypto.go:115-131 | After replacing up to six consecutive symbols of a valid text it decodes to nothing at all |
| Bandwidth.Meter.ReadBandwidthDelta | agent/operations/bandwidth.go:165-213 | Returns the bytes of the lines that parsed and are of the month, from the saved offset on if inode, month and size allow it and from the start otherwise; saves inode, size, offset, month and bytes; a missing log changes nothing |
| Bandwidth.Meter.SumNginxBandwidth | agent/operations/bandwidth.go:134-144 | Adds the deltas of the listed sites, in order, to the persisted total |
| Bandwidth.Meter.MeasureAccountUsage | agent/operations/usage.go:52-54 | Sums first and persists after, leaving other months' totals |
| Bandwidth.MonthlyTotalIsExact | agent/operations/bandwidth.go:134-254 | After any run of appends, rotations, removals, truncations, measurements and crashed measurements in non-decreasing months, with clean reads, the persisted total and the bytes lost at the month's crashed measurements add up to the bytes of the lines present at some measurement of the month, each counted once |
| Bandwidth.NothingLost | agent/operations/bandwidth.go:134-254 | A month none of whose measurements crashed loses nothing, so its total is exact whatever happened in other months |
| Bandwidth.TotalEqualsRescan | agent/operations/bandwidth.go:134-213 | With appends only, the total persisted by a measurement is the bytes of all lines in the sites' logs that parsed and are of the month |
| Bandwidth.OneMoreLineAdds | agent/operations/bandwidth.go:165-213 | A new line raises the next total by its bytes if it parsed and is of the measured month, and by nothing otherwise |
| Bandwidth.ReadIsExactIffClean | agent/operations/bandwidth.go:165-213 | In every state a run with non-decreasing months can reach, whatever went wrong before: a read scans exactly the lines of the month that were not present at an earlier measurement if and only if no line of the month lies between where it starts and what was seen before |
| Bandwidth.ScannedAreTheUnseenIff | agent/operations/bandwidth.go:165-213 | The same for any state whose files and marks are consistent, with every line scanned once |
| Bandwidth.RunKeepsFiles | agent/operations/bandwidth.go:165-213 | Checkpoints, marks and present lines stay consistent in every run with non-decreasing months |
| Bandwidth.UnnoticedTruncation | agent/operations/bandwidth.go:182-192 | The two ways the code fails that condition: new lines that are never counted, and old lines that are counted twice |
| Bandwidth.RunKeepsInv | agent/operations/bandwidth.go:134-254 | The ledger of counted, pending and present lines is kept by every event of a run |
| Bandwidth.MeasureIsTheMethod | agent/operations/usage.go:52-54 | A measurement in a run has the checkpoints and the total of the method |
| Bandwidth.PresentAfterReads | agent/operations/bandwidth.go:134-144 | A measurement makes present exactly the month's lines in the logs it can read |
| Hpm3.ArchiveReader.NextFrame | internal/backup/stream.go:364-411 | One frame: name length, name, order and uniqueness, size, body, digest, with the error or end of every short read |
| Hpm3.ArchiveReader.Each | internal/backup/stream.go:334-362 | Calls fn as the reading specification says and, on any bytes at all, ends without error only after all expected components |
| Hpm3.EachSucceedsIffAccepted | internal/backup/stream.go:334-411 | On any bytes, with any callback: the loop ends without error having made these calls exactly when the bytes have one of the accepted shapes, including the ones cut short inside the last frame |
| Hpm3.CutFrameIsAccepted | internal/backup/stream.go:385-388 | An archive whose only frame stops after its name is read as complete, without a call |
| Hpm3.WholeFramesAccepted | internal/backup/stream.go:334-411 | On whole frames it succeeds exactly when names equal the expected list, none repeats and every digest matches, and then hands over every body |
| Hpm3.ValidateInventory | internal/backup/stream.go:230-251 | Accepts exactly the inventories whose names are the expected ones in order, non-empty and distinct |
| Hpm3.ArchiveWriter.WriteComponent | internal/backup/stream.go:168-200 | Succeeds exactly for components that can be opened, are not an empty home, are long enough and have their claimed hash, and then appends the whole frame |
| Hpm3.WritableIff | internal/backup/stream.go:168-222 | A component can be written exactly if it holds bytes: its inline data, or the first n of its stream, n its own size if positive and else the offered one; and it is not an empty home and claims no other hash |
| Hpm3.FrameLayout | internal/backup/stream.go:168-200 | A frame is the name's length in four bytes, the name, the size in eight, the body and the digest, high bytes first |
| Hpm3.ArchiveWriter.WriteHpm3 | internal/backup/stream.go:130-166 | Writes magic, header length, header and all frames |
| Hpm3.ReadHeader | internal/backup/stream.go:305-332 | The manifest and the remaining bytes, or an error for each bad header |
| Hpm3.HeaderOfArchive | internal/backup/stream.go:305-332 | A written header is read back exactly when its size is accepted and its version is the format |
| Hpm3.FramesReadBack | internal/backup/stream.go:168-200 | Written frames are all handed over when every name fits the reader's limit, and the reading fails otherwise |
| Hpm3.RoundTrip | internal/backup/stream.go:130-200 | Reading what was written gives the manifest and every component's bytes in order exactly when the header and the names are within the limits |
| Hpm3.BytesComeBack | internal/backup/stream.go:130-222 | Reading back gives every component's name with the bytes it holds, its inline data in full, in order |
| Hpm3.ArchiveStart | internal/backup/stream.go:143-158 | The archive begins with HPM3 and a line end, the header's length in four bytes, and the header |
| Fence.Host.AcceptFence | agent/operations/fence.go:34-55 | Replay, refusal or go-ahead; it goes ahead exactly if the request has no fence, or is neither stale nor answered by the stored record |
| Fence.Host.RememberFence | agent/operations/fence.go:57-77 | Stores the receipt of a fenced request and writes the map |
| Fence.Host.Dispatch | agent/operations/ops.go:98-135 | One dispatch: response, records and file as the effect function says; the operation is executed exactly if nothing cuts it short and the request, under the bound envelope if it has no fence, goes ahead |
| Fence.ExecutedIff | agent/operations/fence.go:34-55 | In the fields of request and record: executed exactly without a fence, or with a key and neither stale nor answered; every newer fence is executed |
| Fence.NotExecutedAnswer | agent/operations/fence.go:34-55 | What is not executed gets the stored receipt or is refused, and stores nothing |
| Fence.ExecutedAnswer | agent/operations/fence.go:57-77 | An executed operation's answer goes to the caller and is stored with the request's fence, operation, method and fingerprint |
| Fence.FailuresStoreNothing | agent/operations/ops.go:111-133 | What is cancelled, stopped by the hook or fails stores nothing |
| Fence.EffectiveIs | agent/operations/ops.go:105-107 | A request without a fence takes the bound envelope if that has one, and keeps method and parameters |
| Fence.Host.Restart | agent/operations/fence.go:101-129 | A new process reads back what was written |
| Fence.RunIsFenced | agent/operations/fence.go:34-99 | Over any run in which a restart finds its records in the file: no executed fenced request is older than one remembered on its key before, and of one fence only one non-empty operation id is executed after it was remembered |
| Fence.ExecutedIsCurrent | agent/operations/fence.go:34-55 | An executed fenced request follows every record its key ever had, those found at the start included: it is of no older fence, and under one fence of no other named operation |
| Fence.FenceNeverDecreasesIff | agent/operations/fence.go:34-129 | Over any run, whatever was written, no stored fence ever decreases exactly when no restart finds a file that is behind |
| Fence.UnwrittenFenceIsForgotten | agent/operations/fence.go:119-129 | A fence whose record was not written is forgotten at a restart, and an older request is executed |
| Fence.LastWrittenIsInStep | agent/operations/fence.go:89-129 | The file is in step as soon as the last record stored was written, whatever failed before |
| Fence.RestartKeepsIff | agent/operations/fence.go:101-118 | A restart changes nothing exactly when the file holds the records in force |
| Fence.LastRememberedIsReplayed | agent/operations/fence.go:46-50 | The last remembered request on a key is answered from its record and not executed, whatever it would answer now |
| Fence.RepetitionsAreReplayed | agent/operations/fence.go:46-50 | Any number of repetitions get the one answer, change no record and execute nothing |
| Fence.ExecutedAgainIff | agent/operations/fence.go:34-55 | A remembered request is executed again exactly when another method or other parameters were remembered last on its key under the same fence and operation |
| Fence.RestartsAreInvisible | agent/operations/fence.go:101-129 | A run with restarts between its dispatches equals the run without them |
| MailMaps.SenderLogin | internal/mail/maps.go:163-207 | Lists, sorted and once each, the lines a scan account by account gives |
| MailMaps.SnapshotHost | internal/mail/maps.go:239-363 | The one pass over mail domains in any order builds a snapshot with every field as specified |
| MailMaps.SnapshotUnique | internal/mail/maps.go:239-363 | A store has one snapshot: no field depends on the iteration order of the mail-domain map |
| MailRows.RecipientsAre | internal/mail/maps.go:256-287 | In the fields of the rows: an address has a recipient exactly when a mailbox under it has an account that is neither terminated nor terminating, a mail domain and a named domain; the recipient carries the first such mailbox's hash and quota, its account's ids and name and its package's limit |
| MailRows.DomainNamesAre | internal/mail/maps.go:291-306 | A domain name is listed exactly when a mail domain of a serving account has it |
| MailRows.CatchallsAre | internal/mail/maps.go:291-311 | The catch-all lines, each as often as mail domains of serving accounts give it |
| MailRows.AliasMapIs | internal/mail/maps.go:325-360 | The alias lines, one for each usable alias, sorted behind the header |
| MailRows.DestinationsAre | internal/mail/maps.go:335-347 | Destinations comma by comma, trimmed, blank ones dropped, bare names completed with the domain |
| MailRows.SenderMapIs | internal/mail/maps.go:312-361 | A sender line is a recipient's address for itself or a usable alias's address for one of its destinations, sorted, each once |
| MailMaps.SenderLinesAgree | internal/mail/maps.go:163-207 | With unique non-empty ids a line is given by the scan exactly when it is given by the pass over the maps |
| MailMaps.SenderLoginAgrees | internal/mail/maps.go:163-207 | The snapshot's sender map is the text of the scan for the snapshot's recipients, also if the store lists its rows in another order |
| MailMaps.LookupsAgree | internal/mail/maps.go:221-229 | Scanning for an id and looking it up in the filled map find the same row |
| MailMaps.LineList.Add | internal/mail/maps.go:166-176 | Adds a line at most once and never an empty half |
| MailMaps.RecipientsUnique | internal/mail/maps.go:281-287 | Sorting by address leaves one list only, addresses being distinct |
| SortedLines.SortedUnique | internal/mail/maps.go:354-355 | Two sorted lists of the same lines are equal |
| SortedLines.ListingUnique | internal/mail/maps.go:354-355 | Two sorted lists without repeats that hold the same lines are equal |
| SortedLines.LessEqIff | internal/mail/maps.go:354-355 | The order is decided at the first place where two lines differ |
| SendLimitsFile.SendLimits | internal/mail/maps.go:209-219 | Prints the header and one line per recipient with an account |
| SendLimitsFile.ParseSendLimits | internal/mail/policy.go:20-38 | Gives the rows of the lines that parse, in order |
| SendLimitsFile.LimitsRoundTrip | internal/mail/policy.go:20-38 | Parsing what is printed gives back one row per recipient with an account, when addresses and accounts are words and no address starts a comment |
| SendLimitsFile.LineReadIff | internal/mail/policy.go:20-38 | One recipient's line is read back as its row exactly when that condition holds for it |
| SendLimitsFile.OneLine | internal/mail/maps.go:216 | A printed line names address, account and limit in this order |
| SendLimitsFile.ThreeWordsAreARow | internal/mail/policy.go:20-38 | Three words, the third a number, are a row whatever follows them |
| SendLimitsFile.FewerWordsAreNone | internal/mail/policy.go:28-31 | Fewer words are no row |
| SendPolicy.LookupLimit | internal/mail/policy.go:40-49 | The first row for the sender or the login |
| SendPolicy.LookupIsFirst | internal/mail/policy.go:40-49 | The row found is the first whose address is the lowered sender or login, and there is none exactly when no row is |
| SendPolicy.LimitedIs | internal/mail/policy.go:52-72 | A message is limited by that row if its limit is positive, on the counter of its day and the row's account |
| SendPolicy.FirstOverTheLimit | internal/mail/policy.go:52-72 | Of one message sent again and again, one more is rejected exactly if it is above the limit |
| SendPolicy.Policy.BumpCount | internal/mail/policy.go:74-104 | Counts one message on one counter; failing between emptying and writing it resets it |
| SendPolicy.Policy.Decide | internal/mail/policy.go:52-72 | Rejects exactly when the count had reached the row's limit, and counts rejected messages too |
| SendPolicy.HeldBack | internal/mail/policy.go:88-102 | A counter file reads back as the number written |
| SendPolicy.RejectedIff | internal/mail/policy.go:52-72 | Over any run a message is rejected exactly when the earlier messages under its counter make up its limit |
| SendPolicy.PassedIsCapped | internal/mail/policy.go:52-104 | An account whose rows carry one limit gets exactly the smaller of its messages and the limit through in a day |
| SendPolicy.DecideAll | internal/mail/policy.go:52-104 | Deciding message after message gives the answers and the counters of the run |
| ExportNames.FqdnReturnsIff | internal/migration/native.go:374-385 | Rewriting a name to the new root and back gives it back exactly when it was empty, the roots are equal, it was inside the source (and the destination is not empty), or it was outside the destination |
| ExportNames.FqdnDestination | internal/migration/native.go:374-385 | Even a name that does not return is sent on to the right destination name |
| ExportNames.DatabaseReturnsIff | internal/migration/native.go:404-413 | The same for database names and user prefixes |
| ExportNames.FqdnIs | internal/migration/native.go:374-385 | The root becomes the new root, a name below it is moved below the new one, any other stays |
| ExportNames.PrefixedNameIs | internal/migration/native.go:404-413 | A name with the user's prefix gets the new user's, any other stays |
| ExportNames.FtpUserIs | internal/migration/native.go:367-370 | The same for logins |
| ExportNames.HomePathIs | internal/migration/native.go:387-402 | The home and paths below it are moved to the new home, others stay, and every occurrence of the domain is replaced |
| ExportNames.HostTokenIs | internal/migration/native.go:415-426 | A host at or below the root is rewritten as a name, in other texts every occurrence is replaced |
| ExportNames.AddressIs | internal/migration/native.go:428-434 | The local part stays and the host is rewritten |
| ExportNames.NamesThatDoNotReturn | internal/migration/native.go:374-413 | A domain and a database that were below the destination are looked for below the source |
| DataMove.PlanFindsDatabase | internal/migration/native.go:301-312 | Planned after the rewriting, a database is fetched by its old name exactly when that name returns, and goes to the rewritten name |
| DataMove.PlanFindsMailbox | internal/migration/native.go:313-328 | For any names: a mailbox's directory is fetched from its old domain exactly when the domain's name returns (or is replaced by its fallback), and goes below the rewritten domain |
| DataMove.PlanCopies | internal/migration/native.go:283-335 | Home to home, the user, and each database's engine and dump |
| DataMove.MailboxMoves | internal/migration/native.go:313-328 | With distinct ids a mailbox is moved from the directory under its domain's old name to the one under its new name |
| DataMove.RewrittenRows | internal/migration/native.go:337-372 | What every rewritten row of every table holds |
| DataMove.KeyIs | internal/migration/native.go:256-281 | With distinct ids a mailbox's key is its local part, an at sign and its domain's name |
| ExportNames.MailReturnsIff | internal/migration/native.go:313-328 | The same condition for the two lookups and the fallback, also with an empty root |
| DataMove.FoundReturned | internal/migration/native.go:288-318 | Both lookups among the rewritten rows find the recovered form of the name found before |
| Migration.Export.RewriteExportTree | internal/migration/native.go:337-372 | Every table is rewritten row by row by its rule, the others stay |
| Migration.Export.PlanDataMove | internal/migration/native.go:283-335 | The loops over maps compute the plan that is specified by last matches |
| Migration.Export.MailboxKey | internal/migration/native.go:256-281 | The nested loops that stop at the first match compute the specified key |
| ExportIds.Renamer.Next | internal/migration/native.go:437-448 | An id seen before gets its new id again, any other a new one; an empty id gets one of its own each time |
| ExportIds.Renamer.RemapOwned | internal/migration/native.go:450-453 | One loop over rows with an owner |
| ExportIds.Renamer.RemapChildren | internal/migration/native.go:454-458 | One loop over rows with an owner and a parent |
| ExportIds.Renamer.RemapRecords | internal/migration/native.go:488-491 | The loop over DNS records |
| Migration.Export.RemapExportIds | internal/migration/native.go:436-504 | Over all thirteen tables: any two id fields are equal after it exactly when they were equal and non-empty before; every row gets the new account id; nothing else changes; all ids are new |
| ExportIds.RecordedGraph | internal/migration/native.go:436-504 | What the closure recorded determines the graph of references up to renaming |
| DataMove.PlanUnchangedIff | internal/migration/native.go:283-335 | The plan is the same before and after the ids are replaced exactly when no mailbox is found through an empty id |
| DataMove.RowsWithIdsAreLinked | internal/migration/native.go:283-335 | Exports whose rows have ids meet that condition, for the plan and for the keys |
| DataMove.MailboxKeyUnchangedIff | internal/migration/native.go:256-281 | So is every mailbox key, exactly under the same condition for it |
| Migration.Export.CollectHashes | internal/migration/native.go:66-79 | Files each key's last password hash beside the rows |
| Migration.Export.ApplySecretHashes | internal/migration/native.go:237-254 | Fills only the rows without a hash, from what is filed under their keys |
| PasswordHashes.HashesAre | internal/migration/native.go:237-254 | A row with a hash keeps it, one without takes what is filed under its key, and nothing else changes |
| PasswordHashes.HashesReturnIff | internal/migration/native.go:237-254 | Exporting with hashes and importing gives every mailbox and login its own hash back exactly when rows filed under one key have one hash |
| PasswordHashes.SharedKeyMixesHashes | internal/migration/native.go:66-72 | In an export with two mail domains of one domain and a mailbox of one name in each, the import gives the first mailbox the second's hash |
| Migration.Export.Rename | internal/migration/native.go:160-177 | Rewrite, plan, replace ids: the plan made in between fits the resulting export exactly when it does not hang on empty ids |
| Migration.TargetIs | internal/migration/native.go:117-128 | The given name and domain are taken, or those of the export |
| Limiter.Compact | internal/httpserver/api.go:4123-4128 | Appending into the array being read keeps exactly the times inside the window, in order |
| Limiter.Append | internal/httpserver/api.go:4133 | In place or into a larger array, the slice gets one more element |
| Limiter.Limiter.Allow | internal/httpserver/api.go:4118-4135 | Allows exactly when fewer than n fresh times are held; what is held for other keys is untouched |
| Limiter.AllowsIff | internal/httpserver/api.go:4118-4135 | On a clock that does not go back, a call is allowed exactly when fewer than n of all earlier allowed calls, compacted away or not, are fresh |
| Limiter.AllowedIffFewerInWindow | internal/httpserver/api.go:4118-4135 | In plain numbers: exactly when fewer than n calls were allowed in the window's length up to it, one that is exactly a window old not counted |
| Limiter.AllowedNext | internal/httpserver/api.go:4129-4134 | A call that is allowed is recorded at its time, one that is not leaves the record |
| Limiter.AtMostNPerWindow | internal/httpserver/api.go:4118-4135 | No half-open interval of the window's length holds more than n allowed calls |
| Limiter.HeldIsFreshAllowed | internal/httpserver/api.go:4123-4133 | Compaction forgets nothing a later call would count |
| Limiter.KeysAreIndependent | internal/httpserver/api.go:4111-4135 | Over any interleaving, what a key holds is what its own calls alone leave |
| ChunkTransfer.Agent.AppendManagedChunk | agent/operations/secure.go:108-172 | Staging file, destination and answer after one chunk, wherever it is cut short |
| ChunkTransfer.Agent.ApplyFileChunk | agent/operations/apply_file.go:45-81 | The same behind the checks on offset and size |
| ChunkTransfer.ChunkWithoutFaults | agent/operations/secure.go:108-172 | Accepted exactly within 256 KiB and 2 GiB and where the file begins or ends; then all of it is written, and a last one replaces the destination |
| ChunkTransfer.FaultsKeepDestination | agent/operations/secure.go:108-172 | Whatever goes wrong, the destination changes only as it would have without the fault, and which faults still let a request be answered with success |
| ChunkTransfer.ApplyFileOverSock | agent/operations/apply_file.go:18-41 | Under any faults the destination is the old one or the whole content, and it is the content on success; without faults it succeeds from any leftover state, so a retry converges |
| ChunkTransfer.DestinationIsWhatLanded | agent/operations/secure.go:108-172 | Under any sequence of requests and faults the destination changes only with a last chunk, and to exactly the bytes landed since the latest chunk at offset 0, each chunk at its offset |
| ChunkTransfer.ConfirmedIsLanded | agent/operations/secure.go:108-172 | When failed requests write nothing, those bytes are the chunks answered with success |
| ChunkTransfer.CommitIsContentIff | agent/operations/secure.go:108-172 | Whoever sends what, a commit leaves exactly a content if and only if every chunk it builds on agrees with the content at its offset and the last one ends where it ends |
| ChunkTransfer.InterleavedSendersMix | agent/operations/secure.go:123-148 | Two senders whose first chunks differ: the one's second chunk completes the other's first, and the file is not the first one's content |
| Installer.Installation.SaveState | installer/phases/phases.go:80-113 | The state file is replaced as a whole or not at all |
| Installer.Installation.FailPhase | installer/phases/runner.go:114-125 | Records the failure, or leaves the record if that cannot be saved |
| Installer.Installation.Visit | installer/phases/runner.go:66-110 | What one turn of the loop leaves on record for its phase and the others, and exactly when it succeeds; a phase that is not complete or no longer verifies is checked, applied and verified in this order |
| Installer.Installation.Run | installer/phases/runner.go:23-111 | Success exactly when every phase was passed, all complete under the current fingerprint; it succeeds whenever every step and save does; later phases untouched after an end at one; nothing applied or written when every phase holds |
| Installer.FailuresOnRecord | installer/phases/runner.go:89-125 | A phase that fails is recorded as failed, one during which the process ends as running, both counted |
| Installer.HonestLonger | installer/phases/runner.go:66-110 | The state file stays honest while events are logged: each phase recorded as complete was last applied, right after a check, and then verified under the recorded fingerprint, and no application is uncounted |
| Installer.CompleteIsHonest | installer/phases/runner.go:101-105 | Recording a phase as complete is honest once it was applied and verified |
| Installer.CountedAndRunning | installer/phases/runner.go:80-85 | A phase on record as running has been counted once more than applied |
| Uuid7.Generator.New | internal/id/id.go:19-43 | The identifier of the clock, the wrapping counter and the random tail |
| Uuid7.IncreasingIff | internal/id/id.go:19-43 | Over any run on a clock that does not go back, every identifier is greater than all before it exactly when no millisecond sees more than 4096 calls |
| Uuid7.NextIsGreaterIff | internal/id/id.go:19-43 | Two calls in a row are increasing exactly when the clock moved on or the low twelve bits do not wrap |
| Uuid7.IdLess | internal/id/id.go:32-42 | Text order follows the millisecond and the counter whatever the random tails |
| Uuid7.IdIsUuid7 | internal/id/id.go:32-43 | Version 7, variant 10 and five groups of lower-case digits, accepted unchanged by Parse |
| Uuid7.SomeIdentifier | internal/id/id.go:19-63 | One identifier in full: millisecond, counter, variant and random bytes where they stand |
| Uuid7.ParseIff | internal/id/id.go:45-58 | Exactly which texts are accepted, and as what |
| Uuid7.ParseStable | internal/id/id.go:45-58 | What Parse returns it accepts unchanged |
| Uuid7.AcceptedIsUuidIff | internal/id/id.go:45-58 | A text that is accepted is an identifier exactly when it has four dashes |
| Uuid7.DashesAreAccepted | internal/id/id.go:50-56 | Thirty-six dashes are accepted |
| Uuid7.FormatLess | internal/id/id.go:60-63 | Formatting keeps the order of bytes |
| Spf.RewritePrivateIP4Tokens | internal/netaddr/ip.go:78-103 | The scan ends although it rewrites the string it scans, with every private token replaced |
| Spf.PartsAfter | internal/netaddr/ip.go:78-103 | Read again, the result has the same parts in the same order except that private addresses became the public one |
| Spf.NoPrivateLeftIff | internal/netaddr/ip.go:78-103 | Whatever the text, no private address is left behind a prefix: exactly for the replacements that hold none behind the prefix and do not end in a part of it |
| Spf.PartsAfterAny | internal/netaddr/ip.go:78-103 | With any replacement that does not end open, the result has the same parts with each private address replaced by the parts of the replacement |
| Spf.SwappedTwice | internal/netaddr/ip.go:78-103 | A second pass changes nothing |
| Spf.UnchangedIff | internal/netaddr/ip.go:78-103 | The text stays as it is exactly when no token had to go |
| Spf.AddressIsReadIff | internal/netaddr/ip.go:71-74 | A text is read as an address exactly if it is the dotted decimal text of four numbers up to 255, and then as those |
| Spf.OneToken | internal/netaddr/ip.go:78-103 | Of a text with one token, what follows the prefix up to the first character that is no digit or dot is replaced exactly if it is private and not the replacement |
| Spf.MaskedAddressIsNotClean | internal/netaddr/ip.go:71-103 | An address with a mask is taken as a replacement, and its private address is brought in |
| Spf.PrivateAsDocumentedIff | internal/netaddr/ip.go:60-69 | The code agrees with the list in its comment exactly outside 100.64.0.0/10, all of which it takes for public |

## Left out

- Bandwidth.Meter.ReadBandwidthDelta: lines are already parsed and whole, offsets count lines; timestamp text, partial last lines and the scanner's line limit are not modelled, and byte counts do not overflow.
- Bandwidth.MonthlyTotalIsExact: one account, months as increasing numbers; checkpoint and total files that cannot be written are only modelled as a crash between the two.
- Bandwidth.Meter.SumNginxBandwidth: the order of site ids is given; how they are found on disk is not part of this model.
- Bech32.Encode: lower case is ASCII; the only prefix in use is ASCII.
- Hpm3.RoundTrip: age encryption is the identity, SHA-256 an unknown function with 32-byte results, the manifest's JSON an assumed round trip; the pipe between writer and encryption is sequential.
- Hpm3.HeaderOfArchive: the manifest's text is shorter than 2^32 bytes, the width of its length field.
- Hpm3.ArchiveReader.Each: the path for the older single-payload format is left out.
- Fence.Host.Dispatch: one dispatch is one step on a host without an agent socket; two dispatches whose halves interleave are not covered, and nothing is claimed about them.
- Fence.RunIsFenced: asks, as do the results on current requests, replay and restarts, that a restart finds the records in the file, and that receipts are JSON text, never empty; a file that is written only in part is taken for unreadable.
- Bandwidth.RunKeepsInv: asks for clean reads; what a read that is not clean does is in ReadIsExactIffClean.
- Spf.PartsAfter: asks for a replacement of digits and dots, as do SwappedTwice and UnchangedIff; PartsAfterAny is for others.
- MailMaps.SnapshotHost: letter case is ASCII; the store's tables are lists with unique non-empty ids.
- SendLimitsFile.LimitsRoundTrip: counts and limits are unbounded integers; letter case is ASCII.
- SendPolicy.PassedIsCapped: the limits file does not change during the run and every message is counted without a fault.
- Migration.Export.RewriteExportTree: rows carry the fields that are rewritten; statuses and revisions are left out, as are the import's collision checks and the job it queues.
- Limiter.Limiter.Allow: times are integers of any size; how much Go grows a slice is left open.
- ChunkTransfer.Agent.AppendManagedChunk: one path; modes, owners, links and paths outside the managed roots are not modelled, and the quota check is one of the ways a request is refused.
- Installer.Installation.Run: what a phase does is its outcome; rollback of a failed apply, release numbers and the contents of log records are left out, and the fingerprint is any function of the phase's name.
- Uuid7.Generator.New: calls are sequential; reading the clock outside the lock is not modelled.
- Uuid7.IncreasingIff: the clock is after the first millisecond of 1970, at which a new process starts its counter differently, and below 2^48 milliseconds.
- Uuid7.ParseIff: text is characters and letter case is ASCII; other letters are refused either way.
- Spf.RewritePrivateIP4Tokens: addresses are dotted decimal; a replacement in IPv6 notation is taken as public text.
- The job queue, leases and heartbeats of the store, in memory and in Postgres.
- The restore journal and the worker's restore, whose early return makes completeness a different question.
- Disk quotas, which rest on a cached figure.
- HTTP handlers, the command line, portals, ACME, SFTP and S3 clients, and the running of system services.
- Roles, configuration templates and validators, which would add single-branch facts only.
