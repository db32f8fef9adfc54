# Nostalgia administration site: a verified model

A Dafny model of the code of this repository that decides something: the local administration page
(`Web/www/index.php`) and the macros with bodies in the Apache headers it ships (hook registration and
dispatch, alignment).

`dafny verify dfyconfig.toml` checks everything.

## What is modelled

- **The account row** (`Srp6.dfy` on `Hex.dfy`, `Numerals.dfy`, `Arithmetic.dfy`). How a name, a password
  and 32 random bytes become the two hexadecimal columns of an account, and how a server that only has
  those columns takes part in the exchange of section 2.6 of RFC 5054. SHA-1 is any function from byte
  strings to 20 bytes; the random bytes are any 32 bytes.
- **The page** (`World.dfy`, `Accounts.dfy`, `Backups.dfy`, `Site.dfy`, `Histories.dfy`, and `AdminSite.dfy`
  with the class `Page`). Each POST action is a sequence of statements on the logon database, the
  characters database and the files. A *schedule* says, for every point between two statements, which steps the game server
  takes there and whether the statement succeeds; the laws hold for every schedule. A *run* is any
  sequence of game-server steps and whole requests. `Accounts`, `Backups` and `Site` hold the
  specification functions. A *history* lists every world that another connection can see, also inside a
  request; `Histories` has, for each specification function, the one that records its worlds. The methods
  of `Page` do the same statement by statement on mutable tables and files, recording every world, and are
  proved to reach the specified world, reply and history. `AccountLaws` and `BackupLaws` hold what follows
  for one request, `Replies` gives every answer and what posted texts stand for, `SiteLaws` is about runs, `HistoryLaws` says which writes each request is permitted, and
  `VisibleLaws` what holds in every visible world of a run; `Page.HandleRun` brings that to the class.
- **The text functions** (`Text.dfy`, `Names.dfy`, `Config.dfy`): trimming and upper-casing, the anchored
  name pattern, `safeDumpName`, paths, and the configuration parser.
- **Hooks** (`Hooks.dfy`): registration, the void, run-all and run-first loops, and the second run-all
  loop for optional hooks.
- **Alignment** (`Align.dfy`): `APR_ALIGN` on unsigned words of any width.

### Assumptions

- Requests run one at a time. The actions take no locks: with two requests at once, two accounts of one
  name can be created between the SELECT and the INSERT (`ConcurrentCreates`), unless an index of the
  table forbids it; the table definitions are not part of this model.
- `account` is an InnoDB table (`MariaDB/data/logon/account.ibd`): its row is deleted at a successful commit
  and not at all otherwise. `realmcharacters` is a MyISAM table (`realmcharacters.MYD` and `.MYI` beside it):
  it takes no part in the transaction, its DELETE takes effect at once and is never rolled back, and a
  statement on several of its rows that fails may have handled the rows of any of the realms. Other
  connections see the effect of a statement in one step.
- Primary keys are unique; the key handed out for a new account is any key, and a taken one makes the INSERT
  fail.
- Names and paths compare exactly (no case folding), and `unlink`, `copy`, `rename` and
  `move_uploaded_file` either do all of their work or nothing. `rename` replaces an existing target.
- The game server creates characters only for existing accounts, at any level and experience (it also loads
  saved ones), changes levels otherwise only upwards and of characters that are online, and writes files
  only under `temp_dump_` in its own directory.
- `glob` returns each matching file once, in any order.
- The clock shows minutes of a year with four digits.
- `filesize` follows PHP's documented behaviour: the first size read for a path is remembered until the
  request ends.

### What turned out not to hold

- `create_account` is not atomic. An error leaves an account behind exactly when only the second INSERT
  fails, and realm rows exactly when that INSERT had added some (`CreateAccountFails`,
  `CreateAccountFailsExample`). Repeating the request never completes the account, neither at once
  (`RetryRefused`) nor after any run that does not delete the name (`RetryRefusedLater`).
- `delete_account` is not atomic either, in spite of its transaction: an error leaves the account, but without
  realm rows exactly when the first DELETE had removed some (`DeleteAccountFails`,
  `DeleteAccountFailsExample`). Here repeating the request does repair it (`DeleteRetried`).
- `delete_account` can leave a character without its account: exactly when a step of the game server between
  the count and the commit creates a new character for the account and no later one there deletes it
  (`DeleteAccountOrphans`, `OrphanExample`).
- `push_level_55` can lower a level: exactly when a step between the SELECT and the UPDATE takes the character
  above 55, while it is online or by creating it anew, and none after it deletes the character
  (`PushLevelLowers`, `PushLevelLowersExample`).
- `create_backup` can announce a backup of at most 50 bytes, although it waits for more: exactly when the game
  server's last write of the dump after the last poll is that short (`BackupContents`,
  `ShortBackupExample`).
- `delete_dump` announces a deletion even when the file could not be deleted (`FalseDeletion`).
- `create_backup` does not find every dump of more than 50 bytes: one first seen with at most 50 bytes is
  missed however much it grows (`PollingExact`, `StaleSizeExact`, `StaleSizeExample`).
- A new backup can be asked for again exactly when the character's name has at most 32 letters, digits,
  underscores or hyphens; otherwise no request looks at it, under any name (`BackupAddressable`,
  `BackupRoundTrip`, `UnreachableExample`). Over runs: every file in the store can be fetched exactly if every
  new backup was of such a character (`RunKeepsAddresses`, `EveryBackupFetched`).
- `APR_ALIGN` rounds up exactly when the sum fits in the mask (`AlignExact`): it fails on overflow
  (`OverflowExample`), and also when an unsigned boundary narrower than the size makes the mask too narrow
  (`NarrowMaskExample`).

## Model

| member | source | states |
|---|---|---|
| Arithmetic.PowMultiplies | Web/www/index.php:119-122 | powers of powers multiply exponents, for all exponents |
| Arithmetic.PowCongruent | Web/www/index.php:119-122 | congruent bases have congruent powers modulo any n |
| Numerals.ReadMinimal | Web/www/index.php:124-125 | writing a number in a base without leading zeros and reading it back gives the number |
| Numerals.MinimalInvertsRead | Web/www/index.php:114-116 | reading digits and writing them minimally is the identity exactly on strings without a leading zero |
| Numerals.ReverseReads | Web/www/index.php:100-103 | reversing the digits turns big-endian reading into little-endian reading |
| Numerals.SplitReads | Web/www/index.php:102 | two hexadecimal digits per byte denote the same number as the bytes |
| Hex.BinHexReads | Web/www/index.php:126 | the hexadecimal text of bytes, in either case, parses to their big-endian number |
| Hex.GmpTextReads | Web/www/index.php:125 | parsing inverts printing in upper case, for every number |
| Hex.LittleEndianReads | Web/www/index.php:100-103 | `gmpFromLittleEndian` gives byte i the weight 256^i, and fails exactly on no bytes |
| Hex.ParseHexExact | Web/www/index.php:102 | the texts read are exactly the nonempty ones of hexadecimal digits in either case |
| Srp6.VanillaSrp6 | Web/www/index.php:105-128 | returns the specified row and leaves the array with the salt's top bit set; without GMP it does neither |
| Srp6.VerifierRange | Web/www/index.php:119-122 | every verifier lies between 1 and the prime minus 1 |
| Srp6.VerifierColumn | Web/www/index.php:121-125 | 1 to 64 characters 0 to 9 or A to F, first one not 0, parsing back to the verifier |
| Srp6.SaltColumn | Web/www/index.php:114-126 | 64 digits denoting a number in [2^255, 2^256) whose minimal bytes are the 32 salt bytes |
| Srp6.SaltBytesRecovered | Web/www/index.php:114-118 | a reader that parses the salt as a number recovers its bytes exactly when the first is not zero |
| Srp6.SaltBits | Web/www/index.php:114-116 | bit 7 of the first salt byte is set; all other bits and bytes are the random ones |
| Srp6.InnerBytesDetermine | Web/www/index.php:113 | the bytes digested for a name and a password determine both |
| Srp6.StoredRowWellFormed | Web/www/index.php:124-127 | both columns of the row have that shape |
| Srp6.RowRoundTrip | Web/www/index.php:100-127 | for every name, password and random bytes, a reader of section 3 of RFC 2945, who digests name, colon and password as bytes, gets from the stored salt to the stored verifier |
| Srp6.PremasterAgreement | Web/www/index.php:119-127 | client and server reach one premaster value from any row a name and password fit, for all exponents and multipliers |
| Srp6.StoredRowUsable | Web/www/index.php:105-128 | the same for the very row `vanillaSrp6` makes |
| Text.TrimDropsPadding | Web/www/index.php:178-179 | trimming returns the middle of any string padded with the six stripped characters, and drops no other |
| Text.CanonicalNames | Web/www/index.php:178-186 | on a posted field the pattern accepts exactly 3 to 16 upper-case letters or digits, in spite of its newline case |
| Text.CanonicalIdempotent | Web/www/index.php:178-179 | canonical text is its own canonical form |
| Text.CanonicalExact | Web/www/index.php:178-179 | a posted text is taken for a name exactly if it is the name in any letter case between stripped characters |
| Text.AcceptedExact | Web/www/index.php:181-186 | a posted text is accepted exactly if it is such a variant of 3 to 16 characters A to Z or 0 to 9 |
| Text.LowerCaseTaken | Web/www/index.php:178-179 | a name typed in lower case with padding is taken for the name |
| Text.CanonicalForgetsPaddingAndCase | Web/www/index.php:178-179 | variants in padding and letter case name the same account |
| Config.JoinExplode | Web/www/index.php:68 | joining the exploded parts gives the value back; there is one part more than semicolons |
| Config.ExplodeJoin | Web/www/index.php:68 | exploding joined semicolon-free fields gives the fields back |
| Config.DatabaseInfoExact | Web/www/index.php:60-74 | success exactly on a first match with four semicolons, with the only fields that join to it |
| Config.DatabaseInfoRoundTrip | Web/www/index.php:60-74 | a line that assigns five plain fields is read back as those fields, if it is the first match |
| Config.MatchAtExact | Web/www/index.php:63 | the pattern finds at a position exactly the value of an assignment, character by character, that begins the file or follows a newline |
| Config.FirstMatchExact | Web/www/index.php:64 | the search returns the match at the first position that has one |
| Config.SettingOnLaterLine | Web/www/index.php:60-74 | a setting on any later line is read back as its fields, if it is the first match |
| Names.SafeDumpNameOfStem | Web/www/index.php:130-138 | for a name with an extension: accepted exactly for 1 to 48 characters before the last dot; the result has them with each unsafe one replaced by an underscore |
| Names.SafeDumpNameOfPlain | Web/www/index.php:130-138 | the same for a name without an extension |
| Names.SafeDumpNameInDirectory | Web/www/index.php:132 | directories before the name and slashes after it make no difference |
| Names.SafeDumpNameOnDrive | Web/www/index.php:132 | neither do drive letters at the start or after a slash |
| Names.SafeDumpNameWithColon | Web/www/index.php:132-133 | any other colon stays in the name as an underscore |
| Names.SafeDumpNameFixed | Web/www/index.php:130-138 | results are 1 to 48 safe characters and the suffix, and the fixed points are exactly such names |
| Names.SafeDumpNameIdempotent | Web/www/index.php:130-138 | sanitising twice is sanitising once |
| Names.BackupAddressable | Web/www/index.php:333 | a generated name is a fixed point exactly for character names of at most 32 safe characters |
| Names.BackupNameReads | Web/www/index.php:333 | the name is the character, an underscore, date, underscore, time and suffix |
| Names.BackupNameInjective | Web/www/index.php:333 | a generated name determines the character and the minute |
| Names.DecimalReads | Web/www/index.php:316 | a number in a path is its decimal digits without leading zeros |
| Names.TempDumpPathInjective | Web/www/index.php:316-317 | the path of a dump determines the character and the second |
| Names.PathsSpelled | Web/www/index.php:263-368 | the three kinds of path as they are spelled |
| Names.TempLoadExact | Web/www/index.php:362 | the cleanup pattern matches exactly the names `temp_load_`, anything without a slash, `.pdump` in the server directory |
| Names.StoredPathInjective | Web/www/index.php:263-272 | the path of a backup determines the validated account and the file |
| Names.PathsApart | Web/www/index.php:316-317 | store, dumps being written and dumps being loaded share no path |
| Names.GeneratedPaths | Web/www/index.php:316-368 | each kind of path the page makes is of its own kind; every `temp_load_` path matches the cleanup pattern |
| World.PlayAllKeepsFiles | Web/www/index.php:322-331 | the game server keeps every file and writes none but dumps |
| AccountLaws.CreateAccountSucceeds | Web/www/index.php:177-203 | exactly when it succeeds; then one new account the password fits, one zero row per realm for it, and all other rows as before |
| AccountLaws.CreateAccountFails | Web/www/index.php:197-203 | an error leaves a new account exactly when only the second INSERT failed, and a realm row exactly when that INSERT had added one; no row that was there is touched |
| AccountLaws.CreateAccountFailsExample | Web/www/index.php:197-203 | an input on which an error leaves an account behind |
| AccountLaws.RefusedWhileTaken | Web/www/index.php:191-195 | in any world in which the name is taken a request for it fails and changes no row |
| AccountLaws.RetryRefused | Web/www/index.php:191-195 | the next request for the half-made account's name fails and changes no row |
| AccountLaws.ConcurrentCreates | Web/www/index.php:191-198 | a second request between the check and the INSERT of a first one gives the name to two accounts |
| AccountLaws.CreateAccountKeeps | Web/www/index.php:191-202 | realm rows go on referring to accounts, names stay unique, the new row is usable, each by itself and also when it stops half-way; no account is touched |
| AccountLaws.DeleteRowsCases | Web/www/index.php:234-244 | the transaction removes the account and its realm rows, or only those realm rows its first DELETE got to |
| AccountLaws.DeleteAccountFails | Web/www/index.php:204-246 | exactly when it succeeds; an error never changes an account, and removes realm rows exactly when the first DELETE had removed some |
| AccountLaws.DeleteAccountFailsExample | Web/www/index.php:234-244 | an input on which a failing commit leaves the account without its realm rows |
| AccountLaws.DeleteRetried | Web/www/index.php:204-246 | with an idle game server, a failed deletion followed by a successful one ends where the successful one alone does |
| AccountLaws.DeleteAccountRemoves | Web/www/index.php:234-239 | removes the one account of the name with all its realm rows, and nothing else |
| AccountLaws.DeleteAccountKeeps | Web/www/index.php:208-239 | each row invariant is kept by itself, also when it stops half-way, and only the confirmed, unprotected name can go |
| AccountLaws.OwnsExact | Web/www/index.php:226-239 | an account without characters owns one after any steps exactly when one step creates it and no later one deletes it |
| AccountLaws.DeleteAccountOrphans | Web/www/index.php:226-239 | a character is orphaned exactly when a step between the count and the commit creates a new character for the account that no later step there deletes |
| AccountLaws.DeleteAccountKeepsOwners | Web/www/index.php:226-239 | none is, if no step there creates a character for the account |
| AccountLaws.OrphanCreated | Web/www/index.php:226-239 | one character created just before the commit is always orphaned |
| AccountLaws.OrphanExample | Web/www/index.php:226-239 | an input on which it happens |
| AccountLaws.DeleteUndoesCreate | Web/www/index.php:177-246 | creating and then deleting an account leaves both databases exactly as they were |
| AccountLaws.PushLevelFrame | Web/www/index.php:397-425 | in every interleaving it changes one row of an offline, owned character, level and experience only, and only on success |
| AccountLaws.PushLevelSucceeds | Web/www/index.php:381-425 | exactly when it succeeds, at most the rows MySQL counts as changed deciding the last step |
| AccountLaws.AboveExact | Web/www/index.php:397-418 | a character not above a level is above it after any steps exactly when one takes it there and no later one deletes it |
| AccountLaws.PushLevelLowers | Web/www/index.php:413-422 | a success lowers a level exactly when a step between SELECT and UPDATE takes the online character above 55 and no later one deletes it; without steps it raises the level |
| AccountLaws.PushLevelRaises | Web/www/index.php:409-418 | no level goes down if none is raised above 55 between SELECT and UPDATE |
| AccountLaws.PushLevelLowersExample | Web/www/index.php:397-422 | an interleaving in which level 60 becomes 55 |
| BackupLaws.UploadDumpStores | Web/www/index.php:247-266 | stored exactly when acceptable and moved; always at a new path, with the posted contents, nothing replaced |
| BackupLaws.AddressExact | Web/www/index.php:267-272 | under a validated account some request looks at a file exactly if its name is sanitised |
| BackupLaws.DownloadReturns | Web/www/index.php:267-279 | changes nothing and returns exactly the addressed backup |
| BackupLaws.DownloadExact | Web/www/index.php:267-279 | a download returns the contents of the path it looks at and does not depend on any other file |
| BackupLaws.DeleteDumpRemoves | Web/www/index.php:280-289 | announced exactly when the backup was there, gone exactly when the file could be deleted, no other touched |
| BackupLaws.FalseDeletion | Web/www/index.php:286-288 | an undeletable backup is announced as deleted and can still be downloaded |
| BackupLaws.FalseDeletionExample | Web/www/index.php:286-288 | an input on which it happens |
| BackupLaws.UploadRoundTrip | Web/www/index.php:247-289 | any name that sanitises alike fetches the upload and deletes it; the store is then as before |
| BackupLaws.PollingExact | Web/www/index.php:323-331 | found exactly when the first of 20 polls that sees the file sees more than 50 bytes; the loop ends there or after all 20 |
| BackupLaws.FoundAtAnyPoll | Web/www/index.php:324-331 | a dump first seen at any of the 20 polls with more than 50 bytes is found there |
| BackupLaws.StaleSizeExact | Web/www/index.php:324-329 | compared with fresh sizes, exactly the dumps first seen small and later big are missed |
| BackupLaws.StaleSizeExample | Web/www/index.php:324-329 | a schedule on which one is missed |
| BackupLaws.CreateBackupSucceeds | Web/www/index.php:290-348 | exactly when it succeeds, over both databases, the command, what the polls see, and the rename |
| BackupLaws.FetchDumpMoves | Web/www/index.php:322-347 | moved exactly when sent, first seen with more than 50 bytes, and renamed; then the backup is the file as it was at the rename and its temporary name is gone; otherwise the store is unchanged and an error is told |
| BackupLaws.CreateBackupFrame | Web/www/index.php:290-348 | no row is changed, and at most the one backup path written, only on success |
| BackupLaws.BackupContents | Web/www/index.php:323-335 | an announced backup is the dump its sighting poll saw unless written again before the rename, and has at most 50 bytes exactly when the last such write had |
| BackupLaws.BackupRoundTrip | Web/www/index.php:267-348 | an announced backup can be downloaded under its own name exactly for addressable names; otherwise no request looks at it under any name |
| BackupLaws.ShortBackupExample | Web/www/index.php:323-335 | an input on which an announced backup is empty, for any character |
| BackupLaws.UnreachableExample | Web/www/index.php:333-335 | an input on which an announced backup is looked at by no request |
| BackupLaws.CleanupKeeps | Web/www/index.php:362-365 | the cleanup removes exactly the listed files that can be deleted, never a dump being written or a backup, and changes no row |
| BackupLaws.LoadDumpLeaves | Web/www/index.php:362-380 | which load files are left in every case of failure |
| BackupLaws.RestoreBackupFrame | Web/www/index.php:349-380 | exactly when it succeeds, which load files exist after it, and that backups and dumps are untouched |
| Replies.CreateAccountAnswer | Web/www/index.php:177-203 | which answer create_account gives in each case, every refusal with its own message |
| Replies.CreateAccountAsTyped | Web/www/index.php:178-203 | name and password in any letter case with any padding are served as the canonical ones |
| Replies.DeleteAccountAnswer | Web/www/index.php:204-246 | which answer delete_account gives in each case |
| Replies.PushLevelAnswer | Web/www/index.php:381-425 | which answer push_level_55 gives in each case, with the name and level that were read |
| Replies.NoteExact | Web/www/index.php:260-261 | the note is found exactly if its 15 characters lie within the first 512 bytes |
| Replies.UploadAnswer | Web/www/index.php:247-266 | which answer upload_dump gives in each case |
| Replies.UploadStoredAs | Web/www/index.php:259-266 | the name and path an upload is stored under, character by character |
| Replies.DownloadAnswer | Web/www/index.php:267-279 | which answer download_dump gives in each case |
| Replies.DeleteDumpAnswer | Web/www/index.php:280-289 | which answer delete_dump gives in each case |
| Replies.CreateBackupAnswer | Web/www/index.php:290-348 | which answer create_backup gives in each case |
| Replies.OtherDumpsIgnored | Web/www/index.php:316-332 | without the dump of this character and second, dumps of others never lead to a backup |
| Replies.ListingExact | Web/www/index.php:362 | a listing has each file of the cleanup pattern once and nothing else |
| Replies.RestoreAnswer | Web/www/index.php:349-380 | which answer restore_backup gives in each case |
| Replies.ServesDatabaseActions | Web/www/index.php:172-425 | with the session token each database action is done as specified |
| Replies.ServesFileActions | Web/www/index.php:172-425 | with the session token each file action is done as specified |
| Replies.ServesNone | Web/www/index.php:51-58 | without it the request is refused and nothing changes |
| Replies.StoredBackupServed | Web/www/index.php:267-279 | a request with the session token for a stored backup is answered with its contents |
| SiteLaws.RunKeepsRows | Web/www/index.php:172-433 | in every run each of the three row invariants is kept by itself: realm rows refer to accounts, names are unique, accounts not there before are canonical, well-formed and usable |
| SiteLaws.RunKeepsRealmRows | Web/www/index.php:172-433 | in every run from any world in which it holds, every realm row refers to an account |
| SiteLaws.RunKeepsNames | Web/www/index.php:172-433 | likewise no name belongs to two accounts |
| SiteLaws.RunMakesUsable | Web/www/index.php:105-203 | in every run from any world, each account not there at the start is usable |
| SiteLaws.RetryRefusedLater | Web/www/index.php:191-203 | a half-made account is never completed: after any run in which its name is not deleted, every request for it fails and changes no row |
| SiteLaws.RunKeepsAccount | Web/www/index.php:204-246 | in every run an account keeps its row unless a request deletes that very name |
| SiteLaws.SystemAccountsStay | Web/www/index.php:211-213 | ADMIN and AHBOT, once present, stay in every run with their row |
| SiteLaws.RunKeepsOwners | Web/www/index.php:226-244 | every character has its account after each event exactly in the runs without an orphaning deletion |
| SiteLaws.ShippedRun | Web/www/index.php:172-433 | the invariants hold from the empty databases of the release |
| SiteLaws.ShippedRunUsable | Web/www/index.php:105-203 | every account any such run leaves agrees on the premaster value from its stored columns |
| SiteLaws.CreatedStaysUsable | Web/www/index.php:105-203 | an account that was stored agrees on the premaster value with its posted password after every run that does not delete its name |
| SiteLaws.PerformStore | Web/www/index.php:247-380 | what each action may do to the store; failures do nothing to it |
| SiteLaws.RunKeepsBackup | Web/www/index.php:247-380 | in every run a backup stays as it is unless deleted by its name or overwritten by a new backup at its path |
| SiteLaws.TouchesItsOwn | Web/www/index.php:263-285 | such an event names the very account and file; a backup that hits the path is of the same character in the same minute |
| SiteLaws.ApplyKeepsUnaddressed | Web/www/index.php:263-335 | a file without an address is removed by no event |
| SiteLaws.RunKeepsAddresses | Web/www/index.php:259-335 | in a run from addressable files, every file in the store keeps an address exactly if each new backup is of a character with at most 32 safe characters |
| SiteLaws.EveryBackupFetched | Web/www/index.php:267-279 | exactly then each file in the store is returned by some download request |
| SiteLaws.RestoreLeavesOne | Web/www/index.php:362-379 | with deletable files never two load files; none when the command cannot be sent |
| SiteLaws.RunKeepsOneLoad | Web/www/index.php:362-380 | with deletable files at most one load file after every prefix of a run |
| HistoryLaws.PerformSince | Web/www/index.php:177-425 | every write of a request is one its action and reply permit: its account, its character, its own store path, load files or the dump it asked for |
| VisibleLaws.PerformSeenChanges | Web/www/index.php:177-425 | a request only adds worlds to the history, each by one game-server step or one write to its own rows and files, and ends in its final world; the loss of an account comes last and is announced |
| VisibleLaws.RunSeenChanges | Web/www/index.php:172-433 | every visible world of a run comes from the one before by a game-server step or a write permitted to one of its requests |
| VisibleLaws.VisibleRowsKept | Web/www/index.php:172-433 | the three row invariants, each by itself, in every world that can be seen at any point of any run, inside requests too |
| VisibleLaws.VisibleOwners | Web/www/index.php:226-239 | every character has its account in every world that can be seen, exactly in the runs without an orphaning deletion |
| VisibleLaws.VisibleBackupKept | Web/www/index.php:247-380 | in every world that can be seen a backup keeps its contents, unless an event of the run deletes it or puts a backup at its own path |
| VisibleLaws.VisibleOneLoad | Web/www/index.php:362-379 | with deletable files there is at most one load file in every world that can be seen, also between copy and deletion |
| AdminSite.Page.constructor | Web/www/index.php:169-170 | the databases of the release and no files, as the first world of the history |
| AdminSite.Page.Reach | Web/www/index.php:172-433 | at a point the game server takes its steps, each recorded, and the statement succeeds or fails as scheduled |
| AdminSite.Page.InsertRows | Web/www/index.php:197-203 | the two INSERTs reach the specified world, reply and history, also when the second fails after some rows |
| AdminSite.Page.CreateAccount | Web/www/index.php:177-203 | the statements reach the specified world, reply and history; names stay unique |
| AdminSite.Page.DeleteRows | Web/www/index.php:234-244 | deletes the realm rows at once and the account row at the commit, as specified, with the specified history |
| AdminSite.Page.DeleteAccount | Web/www/index.php:204-246 | the same for delete_account |
| AdminSite.Page.UpdateLevel | Web/www/index.php:417-419 | changes the row and counts it exactly when it matches and differs |
| AdminSite.Page.PushLevel | Web/www/index.php:381-425 | the same for push_level_55 |
| AdminSite.Page.UploadDump | Web/www/index.php:247-266 | the same for upload_dump |
| AdminSite.Page.DownloadDump | Web/www/index.php:267-279 | the same for download_dump, changing nothing but the reply |
| AdminSite.Page.DeleteDump | Web/www/index.php:280-289 | the same for delete_dump |
| AdminSite.Page.AwaitDump | Web/www/index.php:323-331 | the polling loop reaches the specified world, history, result and number of polls, 20 if it finds nothing |
| AdminSite.Page.CreateBackup | Web/www/index.php:290-348 | the same for create_backup |
| AdminSite.Page.RemoveOldLoads | Web/www/index.php:362-365 | the cleanup loop, over the listing in any order and with game-server steps between two deletions, reaches the specified world and history |
| AdminSite.Page.RestoreBackup | Web/www/index.php:349-380 | the same for restore_backup |
| AdminSite.Page.Post | Web/www/index.php:172-176 | serves a request exactly when the posted token is the session's, by the specification of its action |
| AdminSite.Page.HandleRun | Web/www/index.php:172-433 | playing any events on the page reaches the world of the run; every world in between comes by a step or a permitted write and keeps the row invariants and untouched backups, one load file if files can be deleted, and owners exactly without an orphaning deletion |
| Hooks.Hook.Register | Web/Apache/include/apr_hooks.h:143-161 | creates and announces the array on first use only, and appends the link |
| Hooks.RegistrationOrder | Web/Apache/include/apr_hooks.h:143-166 | after any registrations all links are there in order, each with its own function, predecessors, successors, order and name; the array was announced once, while empty |
| Hooks.Hook.RegisterEach | Web/Apache/include/apr_hooks.h:143-161 | a sequence of registrations reaches the specified state |
| Hooks.Hook.RegisterAndRun | Web/Apache/include/apr_hooks.h:143-202 | whatever is registered on an unused hook is held field by field, shown if debugging is on, and called by a run, each handler once, in the order registered; the array was announced once |
| Hooks.RegistrationShows | Web/Apache/include/apr_hooks.h:159-160 | one pair is shown per registration with debugging on, in order, predecessors first |
| Hooks.Hook.RunVoid | Web/Apache/include/apr_hooks.h:179-202 | calls every handler exactly once in order |
| Hooks.Hook.RunAllExternal | Web/Apache/include/apr_hooks.h:222-250 | calls in order up to the first answer that is neither ok nor decline, and returns it; else ok |
| Hooks.Hook.RunAllOptional | Web/Apache/include/apr_optional_hooks.h:90-110 | the same for the loop that returns from inside |
| Hooks.Hook.RunAllAgree | Web/Apache/include/apr_optional_hooks.h:90-110 | both loops return the same value, reach the same state and call the same handlers, also without an array |
| Hooks.Hook.RunFirst | Web/Apache/include/apr_hooks.h:267-295 | calls in order up to the first answer other than decline, and returns it; else decline |
| Hooks.RunAllUnique | Web/Apache/include/apr_hooks.h:222-250 | the description of a run-all determines its value, state and calls |
| Hooks.RunFirstUnique | Web/Apache/include/apr_hooks.h:267-295 | the same for run-first |
| Hooks.RunAllConcat | Web/Apache/include/apr_hooks.h:222-250 | run-all of a concatenation is that of the first part, then of the second only if the first gave ok |
| Hooks.RunFirstConcat | Web/Apache/include/apr_hooks.h:267-295 | run-first composes with decline as unit |
| Hooks.RunAllAgainstFirst | Web/Apache/include/apr_hooks.h:222-295 | the two call the same handlers exactly when the first answer is not ok or comes last; then they agree up to mapping decline to ok |
| Align.AndBits | Web/Apache/include/apr_general.h:143-144 | the arithmetic `and` acts on each bit |
| Align.NotBits | Web/Apache/include/apr_general.h:143-144 | the arithmetic complement acts on each bit |
| Align.Mask | Web/Apache/include/apr_general.h:143-144 | the mask of 2^k subtracts the remainder by 2^k and cuts at its own width |
| Align.AlignExact | Web/Apache/include/apr_general.h:142-144 | the result is the least multiple of 2^k not below the size exactly when the sum fits in the mask; else it is below the size |
| Align.OverflowExample | Web/Apache/include/apr_general.h:142-144 | at every width the largest size is aligned to 0 |
| Align.NarrowMaskExample | Web/Apache/include/apr_general.h:142-144 | a size that does not overflow is aligned to 0 by a boundary of a narrower type |
| Align.AlignIdempotentMonotone | Web/Apache/include/apr_general.h:142-144 | aligning twice is aligning once, and the order of sizes is kept |
| Align.AlignDefaultRoundsUp | Web/Apache/include/apr_general.h:146-147 | the default rounds up to 8 exactly when adding 7 does not overflow |

## Left out

- HTML, session set-up, the local-address check, logging, response headers and the listing pages: no state of the model depends on them.
- The Windows process list, the named pipe, PDO and the file system themselves: each is a point of a schedule that succeeds or fails.
- The texts of the two commands to the world server (`pdump write`, `pdump load`): only that one was sent; what the server does after it is any steps.
- SHA-1, `random_bytes` and the algorithm of `gmp_powm`: an arbitrary function, arbitrary bytes and a power with a remainder.
- Two requests at the same time: the actions take no locks; `ConcurrentCreates` shows one law that then fails.
- Handlers that register on the hook they run on: the run loops keep a pointer to an array that may then move.
- Windows case folding of file names, reserved names, and making the account directory: a directory that cannot be made shows as a failing move.
- A copy, move or rename that stops half-way, a commit that takes effect and is then reported as failed.
- Case-insensitive name comparison by the database: names are compared exactly, as all names the page writes are upper case.
- `APR_ALIGN` on signed sizes: on unsigned words only.
- `apr_hook_sort_all`, `apr_hook_deregister_all`, `apr_optional_hook_add` and all other Apache and APR functions: declared without bodies.
- The world server's handling of dumps, the launcher, the bridge and the AddOns are not part of this model.
