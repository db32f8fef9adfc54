/** What the visitor is told: the answer to every request, and what the posted texts stand for. */
module Replies {
  import opened AccountLaws
  import opened Accounts
  import opened Backups
  import opened BackupLaws
  import opened Hex
  import opened Names
  import opened Options
  import opened Site
  import opened Srp6
  import opened Text
  import opened World

  lemma AcceptedNames(raw: string)
    ensures MatchesName(Canonical(raw)) <==> Spelled(Canonical(raw))
    ensures ValidName(Canonical(raw)) <==> Spelled(Canonical(raw))
  {
    AcceptedExact(raw);
    CanonicalNames(raw);
  }

  // ---- create_account ----

  lemma StoreAccountAnswer(w: World, username: string, row: Row, id: int, s: Schedule)
    ensures StoreAccount(w, username, row, id, s).reply ==
            if !s(Connect).ok || !s(FindAccount).ok then Failed(DatabaseUnavailable)
            else if exists i :: i in w.accounts && w.accounts[i].username == username then Failed(NameTaken)
            else if !s(InsertAccount).ok || id in w.accounts || !s(InsertRealmRows).ok then Failed(DatabaseUnavailable)
            else Created(username)
  {
  }

  lemma CreateAccountAnswer(sha1: Hash, w: World, r: CreateRequest, s: Schedule)
    ensures var username, password := Canonical(r.username), Canonical(r.password);
            CreateAccount(sha1, w, r, s).reply ==
            if !Spelled(username) then Failed(InvalidAccountName)
            else if !Spelled(password) then Failed(InvalidPassword)
            else if !r.gmpLoaded then Failed(GmpMissing)
            else if !s(Connect).ok || !s(FindAccount).ok then Failed(DatabaseUnavailable)
            else if exists id :: id in w.accounts && w.accounts[id].username == username then Failed(NameTaken)
            else if !s(InsertAccount).ok || r.id in w.accounts || !s(InsertRealmRows).ok then Failed(DatabaseUnavailable)
            else Created(username)
  {
    var username, password := Canonical(r.username), Canonical(r.password);
    AcceptedNames(r.username);
    AcceptedNames(r.password);
    StoreAccountAnswer(w, username, StoredRow(sha1, username, password, r.random), r.id, s);
  }

  /** Name and password may be posted in any letter case and with any padding: the request is served as
      if they had been posted in upper case and without. */
  lemma CreateAccountAsTyped(sha1: Hash, w: World, r: CreateRequest, s: Schedule, name: string, password: string,
                             l: string, m: string, t: string, l': string, m': string, t': string)
    requires Spelled(name) && Variant(r.username, l, m, t, name)
    requires Spelled(password) && Variant(r.password, l', m', t', password)
    ensures CreateAccount(sha1, w, r, s) == CreateAccount(sha1, w, r.(username := name, password := password), s)
    ensures CreateAccount(sha1, w, r, s).reply == Created(name) <==>
            r.gmpLoaded && ReachesRealmRows(w, name, r.id, s) && s(InsertRealmRows).ok
  {
    VariantCanonical(r.username, l, m, t, name);
    VariantCanonical(r.password, l', m', t', password);
    AcceptedNames(r.username);
    AcceptedNames(r.password);
    ValidNamesAreCanonical(name);
    ValidNamesAreCanonical(password);
    CreateAccountAnswer(sha1, w, r, s);
  }

  // ---- delete_account ----

  lemma DeleteAccountAnswer(w: World, r: DeleteRequest, s: Schedule)
    ensures var username := Canonical(r.username); var counted := At(w, s, 4);
            DeleteAccount(w, r, s).reply ==
            if !Spelled(username) then Failed(InvalidAccountName)
            else if username in ["ADMIN", "AHBOT"] then Failed(SystemAccount)
            else if Canonical(r.confirmation) != username then Failed(NotConfirmed)
            else if !s(Connect).ok || !s(FindAccount).ok then Failed(DatabaseUnavailable)
            else if !exists id :: id in w.accounts && w.accounts[id].username == username then Failed(AccountNotFound)
            else if !s(ConnectCharacters).ok || !s(CountCharacters).ok then Failed(DatabaseUnavailable)
            else if exists guid :: guid in counted.characters
                                   && counted.characters[guid].account == Lookup(w.accounts, username).value
            then Failed(OwnsCharacters)
            else if !CommitsWith(s) then Failed(DatabaseUnavailable)
            else Deleted(username)
  {
    AcceptedNames(r.username);
    RemoveAccountAnswer(w, Canonical(r.username), s);
  }

  /** Every refusal before the transaction. */
  lemma NotCountable(w: World, username: string, s: Schedule)
    requires !Countable(w, username, s)
    ensures var counted := At(w, s, 4);
            RemoveAccount(w, username, s).reply ==
            if !s(Connect).ok || !s(FindAccount).ok then Failed(DatabaseUnavailable)
            else if !Taken(w.accounts, username) then Failed(AccountNotFound)
            else if !s(ConnectCharacters).ok || !s(CountCharacters).ok then Failed(DatabaseUnavailable)
            else Failed(OwnsCharacters)
  {
    DeleteStages(w, s);
  }

  lemma RemoveAccountAnswer(w: World, username: string, s: Schedule)
    ensures var counted := At(w, s, 4);
            RemoveAccount(w, username, s).reply ==
            if !s(Connect).ok || !s(FindAccount).ok then Failed(DatabaseUnavailable)
            else if !exists id :: id in w.accounts && w.accounts[id].username == username then Failed(AccountNotFound)
            else if !s(ConnectCharacters).ok || !s(CountCharacters).ok then Failed(DatabaseUnavailable)
            else if exists guid :: guid in counted.characters
                                   && counted.characters[guid].account == Lookup(w.accounts, username).value
            then Failed(OwnsCharacters)
            else if !CommitsWith(s) then Failed(DatabaseUnavailable)
            else Deleted(username)
  {
    if Countable(w, username, s) {
      var n := RemoveAccountCases(w, username, s);
    } else {
      NotCountable(w, username, s);
    }
  }

  // ---- push_level_55 ----

  lemma RaiseReadAnswer(w: World, guid: int, id: int, s: Schedule)
    requires guid in w.characters
    ensures var seen, update := w.characters[guid], Arrive(w, s, UpdateCharacter);
            RaiseRead(w, seen, guid, id, s).reply ==
            if seen.online then Failed(Online)
            else if seen.level >= 55 then Failed(AlreadyHigh)
            else if !s(UpdateCharacter).ok then Failed(DatabaseUnavailable)
            else if guid !in update.characters || update.characters[guid].account != id
                    || update.characters[guid].online
                    || (update.characters[guid].level == 55 && update.characters[guid].xp == 0)
            then Failed(NotUpdated)
            else Raised(seen.name, seen.level)
  {
  }

  lemma RaiseOwnedAnswer(w: World, guid: int, id: int, s: Schedule)
    ensures var read := Arrive(Arrive(w, s, ConnectCharacters), s, ReadCharacter);
            RaiseOwned(w, guid, id, s).reply ==
            if !s(ConnectCharacters).ok || !s(ReadCharacter).ok then Failed(DatabaseUnavailable)
            else if guid !in read.characters || read.characters[guid].account != id then Failed(NotOwned)
            else RaiseRead(read, read.characters[guid], guid, id, s).reply
  {
  }

  lemma RaiseLevelAnswer(w: World, username: string, guid: int, s: Schedule)
    ensures var id := Lookup(w.accounts, username);
            RaiseLevel(w, username, guid, s).reply ==
            if !s(Connect).ok || !s(FindAccount).ok then Failed(DatabaseUnavailable)
            else if id == None then Failed(AccountNotFound)
            else RaiseOwned(Arrive(Arrive(w, s, Connect), s, FindAccount), guid, id.value, s).reply
  {
  }

  lemma PushLevelAnswer(w: World, r: PushRequest, s: Schedule)
    ensures var username := Canonical(r.account);
            var id := Lookup(w.accounts, username);
            var read, update := Passing(w, s, PUSH_POINTS, 4), Passing(w, s, PUSH_POINTS, 5);
            PushLevel(w, r, s).reply ==
            if username == "" || r.guid == 0 then Failed(NoCharacterSelected)
            else if !s(Connect).ok || !s(FindAccount).ok then Failed(DatabaseUnavailable)
            else if id == None then Failed(AccountNotFound)
            else if !s(ConnectCharacters).ok || !s(ReadCharacter).ok then Failed(DatabaseUnavailable)
            else if r.guid !in read.characters || read.characters[r.guid].account != id.value then Failed(NotOwned)
            else if read.characters[r.guid].online then Failed(Online)
            else if read.characters[r.guid].level >= 55 then Failed(AlreadyHigh)
            else if !s(UpdateCharacter).ok then Failed(DatabaseUnavailable)
            else if r.guid !in update.characters || update.characters[r.guid].account != id.value
                    || update.characters[r.guid].online
                    || (update.characters[r.guid].level == 55 && update.characters[r.guid].xp == 0)
            then Failed(NotUpdated)
            else Raised(read.characters[r.guid].name, read.characters[r.guid].level)
  {
    PushStages(w, s);
    RaiseLevelAnswer(w, Canonical(r.account), r.guid, s);
    var id, w2, read := Lookup(w.accounts, Canonical(r.account)), Passing(w, s, PUSH_POINTS, 2), Passing(w, s, PUSH_POINTS, 4);
    if id.Some? {
      RaiseOwnedAnswer(w2, r.guid, id.value, s);
      if r.guid in read.characters {
        RaiseReadAnswer(read, r.guid, id.value, s);
      }
    }
  }

  // ---- upload_dump, download_dump, delete_dump ----

  predicate NoteAt(contents: string, i: nat) {
    i + 15 <= |contents| && i + 15 <= 512 && contents[i..i + 15] == "IMPORTANT NOTE:"
  }

  lemma NoteIn(contents: string, header: string, i: nat)
    requires header == if |contents| > 512 then contents[..512] else contents
    ensures i < |header| && StartsAt(header, i, NOTE) <==> NoteAt(contents, i)
  {
    assert |NOTE| == 15 && NOTE == "IMPORTANT NOTE:";
    if i + 15 <= |header| {
      assert header[i..i + 15] == contents[i..i + 15];
    }
  }

  lemma NoteFound(contents: string, header: string) returns (i: nat)
    requires HasNote(contents) && header == if |contents| > 512 then contents[..512] else contents
    ensures i < |header| && StartsAt(header, i, NOTE)
  {
    i :| 0 <= i < |header| && StartsAt(header, i, NOTE);
  }

  lemma NoteGiven(contents: string, header: string, i: nat)
    requires header == if |contents| > 512 then contents[..512] else contents
    requires i < |header| && StartsAt(header, i, NOTE)
    ensures HasNote(contents)
  {
  }

  /** The note is found exactly if it lies within the first 512 bytes. */
  lemma NoteExact(contents: string)
    ensures HasNote(contents) <==> exists i: nat :: NoteAt(contents, i)
  {
    var header := if |contents| > 512 then contents[..512] else contents;
    if HasNote(contents) {
      var i := NoteFound(contents, header);
      NoteIn(contents, header, i);
    }
    if i: nat :| NoteAt(contents, i) {
      NoteIn(contents, header, i);
      NoteGiven(contents, header, i);
    }
  }

  lemma UploadAnswer(w: World, r: UploadRequest, s: Schedule)
    ensures var o := UploadDump(w, r, s); var account := Canonical(r.account);
            if !Spelled(account) then o.reply == Failed(InvalidAccountName)
            else if r.upload == None then o.reply == Failed(NoUpload)
            else
              var u := r.upload.value; var file := SafeDumpName(u.name);
              o.reply ==
              if u.error != 0 then Failed(UploadFailed)
              else if u.size < 1 || u.size > 10485760 then Failed(TooLarge)
              else if !u.isUploaded then Failed(NotUploaded)
              else if file == None then Failed(BadFileName)
              else if !exists i: nat :: NoteAt(u.contents, i) then Failed(NotADump)
              else if StoredPath(account, file.value) in w.files then Failed(AlreadyExists)
              else if !s(MoveUpload).ok then Failed(NotSaved)
              else Uploaded(file.value)
  {
    AcceptedNames(r.account);
    if r.upload.Some? {
      NoteExact(r.upload.value.contents);
    }
  }

  /** The name an upload is stored under, character by character. */
  lemma UploadStoredAs(w: World, r: UploadRequest, s: Schedule, stem: string, extension: string)
    requires UploadDump(w, r, s).reply.Uploaded?
    requires Segment(stem) && Segment(extension) && '.' !in extension && r.upload.value.name == stem + "." + extension
    ensures var o := UploadDump(w, r, s);
            && SafeVersion(o.reply.file, stem)
            && var path := "backups\\characters\\" + Canonical(r.account) + "\\" + o.reply.file;
               path !in w.files && path in o.world.files && o.world.files[path] == r.upload.value.contents
  {
    UploadDumpStores(w, r, s);
    UploadedName(w, r, s);
    SafeDumpNameOfStem(stem, extension);
    PathsSpelled(Canonical(r.account), UploadDump(w, r, s).reply.file, 0, 0);
  }

  lemma DownloadAnswer(w: World, q: DumpRequest)
    ensures var account, file := Canonical(q.account), SafeDumpName(q.filename);
            DownloadDump(w, q).reply ==
            if file == None then Failed(BadFileName)
            else if !Spelled(account) then Failed(InvalidAccountName)
            else if StoredPath(account, file.value) !in w.files then Failed(BackupNotFound)
            else Download(w.files[StoredPath(account, file.value)])
  {
    AcceptedNames(q.account);
  }

  lemma DeleteDumpAnswer(w: World, q: DumpRequest, s: Schedule)
    ensures var account, file := Canonical(q.account), SafeDumpName(q.filename);
            DeleteDump(w, q, s).reply ==
            if file == None then Failed(BadFileName)
            else if !Spelled(account) then Failed(InvalidAccountName)
            else if StoredPath(account, file.value) !in w.files then NothingDone
            else DumpDeleted(file.value)
  {
    AcceptedNames(q.account);
  }

  // ---- create_backup ----

  lemma FetchDumpAnswer(w: World, account: string, character: string, r: BackupRequest, s: Schedule)
    requires r.guid > 0
    ensures FetchDump(w, account, character, r, s).reply ==
            if !s(SendCommand).ok then Failed(CommandNotSent)
            else if !Appears(w, s, TempDumpPath(r.guid, r.time)) then Failed(NoDumpAppeared)
            else if !s(Rename).ok then Failed(NotMoved)
            else BackedUp(character)
  {
    var i := FetchDumpMoves(w, account, character, r, s);
    var n := PollingExact(Arrive(w, s, SendCommand), s, TempDumpPath(r.guid, r.time));
  }

  lemma SaveCharacterAnswer(w: World, account: string, r: BackupRequest, s: Schedule)
    requires r.guid > 0
    ensures var id := Lookup(w.accounts, account); var read := AtRead(w, s);
            SaveCharacter(w, account, r, s).reply ==
            if !s(Connect).ok || !s(FindAccount).ok then Failed(DatabaseUnavailable)
            else if id == None || id.value == 0 then Failed(AccountNotFound)
            else if !s(ConnectCharacters).ok || !s(ReadCharacter).ok then Failed(DatabaseUnavailable)
            else if r.guid !in read.characters || read.characters[r.guid].account != id.value
                    || read.characters[r.guid].name in ["", "0"]
            then Failed(NotOwned)
            else FetchDump(read, account, read.characters[r.guid].name, r, s).reply
  {
  }

  lemma CreateBackupAnswer(w: World, r: BackupRequest, s: Schedule)
    ensures var account := Canonical(r.account);
            var w0 := Arrive(w, s, ServerCheck); var read := AtRead(w0, s);
            var id := Lookup(w0.accounts, account);
            CreateBackup(w, r, s).reply ==
            if !s(ServerCheck).ok then Failed(ServerDown)
            else if !Spelled(account) then Failed(InvalidAccountName)
            else if r.guid <= 0 then Failed(NoCharacterSelected)
            else if !s(Connect).ok || !s(FindAccount).ok then Failed(DatabaseUnavailable)
            else if id == None || id.value == 0 then Failed(AccountNotFound)
            else if !s(ConnectCharacters).ok || !s(ReadCharacter).ok then Failed(DatabaseUnavailable)
            else if r.guid !in read.characters || read.characters[r.guid].account != id.value
                    || read.characters[r.guid].name in ["", "0"]
            then Failed(NotOwned)
            else if !s(SendCommand).ok then Failed(CommandNotSent)
            else if !Appears(read, s, TempDumpPath(r.guid, r.time)) then Failed(NoDumpAppeared)
            else if !s(Rename).ok then Failed(NotMoved)
            else BackedUp(read.characters[r.guid].name)
  {
    AcceptedNames(r.account);
    var w0 := Arrive(w, s, ServerCheck);
    var read := AtRead(w0, s);
    if r.guid > 0 {
      SaveCharacterAnswer(w0, Canonical(r.account), r, s);
      if r.guid in read.characters {
        FetchDumpAnswer(read, Canonical(r.account), read.characters[r.guid].name, r, s);
      }
    }
  }

  /** No step writes the path. */
  ghost predicate NeverWrites(steps: seq<GameStep>, path: string) {
    forall i :: 0 <= i < |steps| ==> !Writes(steps[i], path)
  }

  lemma {:induction false} StaysAway(w: World, steps: seq<GameStep>, path: string)
    requires path !in w.files && NeverWrites(steps, path)
    ensures path !in PlayAll(w, steps).files
  {
    if steps != [] {
      StaysAway(w, steps[..|steps| - 1], path);
    }
  }

  lemma {:induction false} NeverAtPoll(w: World, s: Schedule, path: string, i: nat)
    requires path !in w.files && forall p :: NeverWrites(s(p).steps, path)
    ensures path !in WorldAtPoll(w, s, i).files
  {
    if i > 0 {
      NeverAtPoll(w, s, path, i - 1);
    }
    StaysAway(if i == 0 then w else WorldAtPoll(w, s, i - 1), s(Poll(i)).steps, path);
  }

  /** Only the dump of this character and this second is taken: without it, dumps of other characters or
      of other times never lead to a backup. */
  lemma OtherDumpsIgnored(w: World, r: BackupRequest, s: Schedule)
    requires r.guid > 0 && TempDumpPath(r.guid, r.time) !in w.files
    requires forall p, i :: 0 <= i < |s(p).steps| && s(p).steps[i].WriteDump? ==>
               s(p).steps[i].dumped != r.guid || s(p).steps[i].time != r.time
    ensures CreateBackup(w, r, s).reply.Failed?
  {
    var path := TempDumpPath(r.guid, r.time);
    forall p
      ensures NeverWrites(s(p).steps, path)
    {
      OtherPaths(s(p).steps, r.guid, r.time);
    }
    CreateBackupSucceeds(w, r, s);
    CreateBackupFrame(w, r, s);
    var w0 := Arrive(w, s, ServerCheck);
    StaysAway(w, s(ServerCheck).steps, path);
    StaysAwayAtRead(w0, s, path);
    var w1 := Arrive(AtRead(w0, s), s, SendCommand);
    StaysAway(AtRead(w0, s), s(SendCommand).steps, path);
    forall i: nat
      ensures !SeenAt(w1, s, path, i)
    {
      NeverAtPoll(w1, s, path, i);
    }
  }

  lemma OtherPaths(steps: seq<GameStep>, guid: nat, time: nat)
    requires forall i :: 0 <= i < |steps| && steps[i].WriteDump? ==> steps[i].dumped != guid || steps[i].time != time
    ensures NeverWrites(steps, TempDumpPath(guid, time))
  {
    forall i | 0 <= i < |steps|
      ensures !Writes(steps[i], TempDumpPath(guid, time))
    {
      if Writes(steps[i], TempDumpPath(guid, time)) {
        TempDumpPathInjective(steps[i].dumped, steps[i].time, guid, time);
      }
    }
  }

  lemma StaysAwayAtRead(w: World, s: Schedule, path: string)
    requires path !in w.files && forall p :: NeverWrites(s(p).steps, path)
    ensures path !in AtRead(w, s).files
  {
    StaysAway(w, s(Connect).steps, path);
    var w1 := Arrive(w, s, Connect);
    StaysAway(w1, s(FindAccount).steps, path);
    var w2 := Arrive(w1, s, FindAccount);
    StaysAway(w2, s(ConnectCharacters).steps, path);
    StaysAway(Arrive(w2, s, ConnectCharacters), s(ReadCharacter).steps, path);
  }

  // ---- restore_backup ----

  /** A listing has each file of the cleanup pattern once, and nothing else. */
  lemma ListingExact(listing: seq<string>, files: Files)
    ensures IsListing(listing, files) <==>
            && (forall i, j :: 0 <= i < j < |listing| ==> listing[i] != listing[j])
            && (forall p :: p in listing <==> p in files && IsTempLoad(p))
  {
    var listed, loads := set p | p in listing, set p | p in files && IsTempLoad(p);
    assert forall p :: p in listed <==> p in listing;
    assert forall p :: p in loads <==> p in files && IsTempLoad(p);
    ListingMeans(listing, files, files);
    assert (forall p :: p in listing <==> p in files && IsTempLoad(p)) <==> listed == loads;
  }

  lemma RestoreAnswer(w: World, r: RestoreRequest, s: Schedule)
    ensures var account, file, target := Canonical(r.account), SafeDumpName(r.filename), Canonical(r.target);
            RestoreBackup(w, r, s).reply ==
            if !s(ServerCheck).ok then Failed(ServerDown)
            else if file == None then Failed(BadFileName)
            else if !Spelled(account) || !Spelled(target) then Failed(InvalidAccountName)
            else if StoredPath(account, file.value) !in w.files then Failed(BackupNotFound)
            else if !s(Copy).ok then Failed(NotCopied)
            else if !s(SendCommand).ok then Failed(CommandNotSent)
            else Restoring(file.value, target)
  {
    AcceptedNames(r.account);
    AcceptedNames(r.target);
    RestoreBackupParts(w, r, s);
    RestoreBackupFrame(w, r, s);
    var file := SafeDumpName(r.filename);
    if file.Some? {
      var path := StoredPath(Canonical(r.account), file.value);
      GeneratedPaths(Canonical(r.account), file.value, 0, 0);
      ArriveKeeps(w, s, ServerCheck);
      CopyReached(Arrive(w, s, ServerCheck), r.listing, s);
      LoadDumpAnswer(Arrive(w, s, ServerCheck), path, file.value, Canonical(r.target), r.time, r.listing, s);
    }
  }

  lemma LoadDumpAnswer(w: World, path: string, file: string, target: string, time: nat, listing: seq<string>, s: Schedule)
    requires InStore(path)
    ensures path in w.files ==>
              LoadDump(w, path, file, target, time, listing, s).reply ==
              if !s(Copy).ok then Failed(NotCopied)
              else if !s(SendCommand).ok then Failed(CommandNotSent)
              else Restoring(file, target)
  {
    CopyReached(w, listing, s);
  }

  // ---- the request ----

  /** With the session's token, and only then, each action is done. */
  lemma ServesDatabaseActions(sha1: Hash, session: string, w: World, q: Request)
    requires q.token != "" && q.token == session
    ensures q.action.Create? ==> Serve(sha1, session, w, q) == CreateAccount(sha1, w, q.action.create, q.schedule)
    ensures q.action.Delete? ==> Serve(sha1, session, w, q) == DeleteAccount(w, q.action.delete, q.schedule)
    ensures q.action.Push? ==> Serve(sha1, session, w, q) == PushLevel(w, q.action.push, q.schedule)
    ensures q.action.Unknown? ==> Serve(sha1, session, w, q) == Outcome(w, NothingDone)
  {
  }

  lemma ServesFileActions(sha1: Hash, session: string, w: World, q: Request)
    requires q.token != "" && q.token == session
    ensures q.action.UploadFile? ==> Serve(sha1, session, w, q) == UploadDump(w, q.action.upload, q.schedule)
    ensures q.action.DownloadFile? ==> Serve(sha1, session, w, q) == DownloadDump(w, q.action.download)
    ensures q.action.DeleteFile? ==> Serve(sha1, session, w, q) == DeleteDump(w, q.action.unlink, q.schedule)
    ensures q.action.Backup? ==> Serve(sha1, session, w, q) == CreateBackup(w, q.action.backup, q.schedule)
    ensures q.action.Restore? ==> Serve(sha1, session, w, q) == RestoreBackup(w, q.action.restore, q.schedule)
  {
  }

  lemma ServesNone(sha1: Hash, session: string, w: World, q: Request)
    requires q.token == "" || session == "" || q.token != session
    ensures Serve(sha1, session, w, q) == Outcome(w, Failed(RequestExpired))
  {
  }

  /** A request with the session's token for a stored backup is answered with its contents. */
  lemma StoredBackupServed(sha1: Hash, session: string, w: World, q: Request, account: string, file: string)
    requires q.token != "" && q.token == session && q.action.DownloadFile?
    requires Spelled(account) && Addresses(q.action.download, account, file)
    requires var path := "backups\\characters\\" + account + "\\" + file; path in w.files
    ensures Serve(sha1, session, w, q) ==
            Outcome(w, Download(w.files["backups\\characters\\" + account + "\\" + file]))
  {
    PathsSpelled(account, file, 0, 0);
    ServesFileActions(sha1, session, w, q);
    DownloadReturns(w, q.action.download, account, file);
  }
}
