/** The page itself, statement by statement, on mutable tables and files. Each method is proved to
    do what its specification function says and to pass through the worlds its history says; the laws
    about those functions are in AccountLaws, BackupLaws, SiteLaws and HistoryLaws. */
module AdminSite {
  import opened AccountLaws
  import opened BackupLaws
  import opened Backups
  import opened Hex
  import opened Histories
  import opened Names
  import opened Options
  import opened SiteLaws
  import opened Srp6
  import opened Text
  import opened VisibleLaws
  import opened World
  import A = Accounts
  import B = Backups
  import S = Site

  // The parts of the laws the class invariant needs.

  lemma CreateKeepsNames(sha1: Hash, w: World, r: A.CreateRequest, s: Schedule)
    requires UniqueNames(w)
    ensures UniqueNames(A.CreateAccount(sha1, w, r, s).world)
  {
    CreateAccountKeeps(sha1, w, r, s);
  }

  lemma DeleteKeepsNames(sha1: Hash, w: World, r: A.DeleteRequest, s: Schedule)
    requires UniqueNames(w)
    ensures UniqueNames(A.DeleteAccount(w, r, s).world)
  {
    DeleteAccountKeeps(sha1, w, r, s);
  }

  lemma RunLast(sha1: Hash, session: string, w: World, h: History, events: seq<S.Event>, i: nat)
    requires i < |events|
    ensures S.Run(sha1, session, w, events[..i + 1]) == S.Apply(sha1, session, S.Run(sha1, session, w, events[..i]), events[i])
    ensures RunSeen(sha1, session, h, events[..i + 1])
         == ApplySeen(sha1, session, RunSeen(sha1, session, h, events[..i]), events[i])
  {
    assert events[..i + 1][..i] == events[..i];
  }

  class Page {
    const sha1: Hash
    const session: string                  // the session's token
    const realms: set<int>
    var accounts: map<int, Account>
    var realmRows: map<(int, int), int>
    var characters: map<int, Character>
    var files: map<string, string>
    var reply: Reply                       // $notice or $error
    ghost var seen: History                // every world so far

    ghost function State(): World
      reads this
    {
      World(accounts, realms, realmRows, characters, files)
    }

    ghost predicate Recorded()
      reads this
    {
      Now(seen) == State()
    }

    /** No name belongs to two accounts, and the present is recorded. */
    ghost predicate Valid()
      reads this
    {
      UniqueNames(State()) && Recorded()
    }

    /** The databases as shipped. */
    constructor (sha1: Hash, session: string, realms: set<int>)
      ensures Valid() && this.sha1 == sha1 && this.session == session
      ensures State() == World(map[], realms, map[], map[], map[]) && seen == [State()]
    {
      this.sha1, this.session, this.realms := sha1, session, realms;
      accounts, realmRows, characters, files, reply := map[], map[], map[], map[], NothingDone;
      seen := [World(map[], realms, map[], map[], map[])];
    }

    // ---- the game server ----

    method GameStepTaken(step: GameStep)
      modifies this`characters, this`files, this`seen
      ensures State() == Play(old(State()), step) && seen == old(seen) + [State()]
    {
      match step {
      case CreateCharacter(guid, name, account, level, xp) =>
        if guid !in characters && account in accounts {
          characters := characters[guid := Character(name, account, level, xp, false)];
        }
      case DeleteCharacter(guid) =>
        characters := characters - {guid};
      case Login(guid) =>
        if guid in characters {
          characters := characters[guid := characters[guid].(online := true)];
        }
      case Logout(guid) =>
        if guid in characters {
          characters := characters[guid := characters[guid].(online := false)];
        }
      case GainLevel(guid, level, xp) =>
        if guid in characters && characters[guid].online && level >= characters[guid].level {
          characters := characters[guid := characters[guid].(level := level, xp := xp)];
        }
      case WriteDump(guid, time, contents) =>
        files := files[TempDumpPath(guid, time) := contents];
      }
      seen := seen + [State()];
    }

    /** A write of the page has been carried out. */
    ghost method Record(x: Write)
      requires State() == Written(Now(seen), x)
      modifies this`seen
      ensures Recorded() && seen == Then(old(seen), x)
    {
      seen := Then(seen, x);
    }

    /** Arriving at a point: the game server's steps first; the result says whether the statement
        there succeeds. */
    method Reach(s: Schedule, p: Point) returns (ok: bool)
      requires Recorded()
      modifies this`characters, this`files, this`seen
      ensures State() == Arrive(old(State()), s, p) && ok == s(p).ok
      ensures Recorded() && seen == Passed(old(seen), s, p)
    {
      var steps := s(p).steps;
      var i := 0;
      while i < |steps|
        invariant 0 <= i <= |steps| && State() == PlayAll(old(State()), steps[..i])
        invariant Recorded() && seen == Watched(old(seen), steps[..i])
      {
        GameStepTaken(steps[i]);
        i := i + 1;
        assert steps[..i][..i - 1] == steps[..i - 1];
      }
      assert steps[..i] == steps;
      ok := s(p).ok;
    }

    method AccountId(username: string) returns (id: Option<int>)
      requires Valid()
      ensures id == A.Lookup(accounts, username)
    {
      if i :| i in accounts && accounts[i].username == username {
        id := Some(i);
      } else {
        id := None;
      }
    }

    // ---- create_account ----

    /** The two INSERTs. */
    method InsertRows(username: string, row: Row, id: int, s: Schedule)
      requires Valid()
      modifies this
      ensures Outcome(State(), reply) == A.InsertRows(old(State()), username, row, id, s)
      ensures Recorded() && seen == InsertRowsSeen(old(seen), username, row, id, s)
    {
      reply := Failed(DatabaseUnavailable);
      var ok := Reach(s, InsertAccount);
      if !ok || id in accounts { return; }
      accounts := accounts[id := Account(username, row.verifier, row.salt)];
      Record(AddAccount(id, Account(username, row.verifier, row.salt)));
      ok := Reach(s, InsertRealmRows);
      var handled := A.Handled(realms, s(InsertRealmRows));
      realmRows := A.NewRealmRows(handled, id) + realmRows;
      Record(AddRealmRows(id, handled));
      if ok {
        reply := Created(username);
      }
    }

    method StoreAccount(username: string, row: Row, id: int, s: Schedule)
      requires Valid()
      modifies this
      ensures Outcome(State(), reply) == A.StoreAccount(old(State()), username, row, id, s)
      ensures Recorded() && seen == StoreAccountSeen(old(seen), username, row, id, s)
    {
      reply := Failed(DatabaseUnavailable);
      var ok := Reach(s, Connect);
      if !ok { return; }
      ok := Reach(s, FindAccount);
      if !ok { return; }
      var existing := AccountId(username);
      if existing.Some? {
        reply := Failed(NameTaken);
        return;
      }
      InsertRows(username, row, id, s);
    }

    method CreateAccount(username: string, password: string, gmpLoaded: bool, random: Random, id: int, s: Schedule)
      requires Valid()
      modifies this
      ensures Valid()
      ensures Outcome(State(), reply)
           == A.CreateAccount(sha1, old(State()), A.CreateRequest(username, password, gmpLoaded, random, id), s)
      ensures seen == CreateAccountSeen(sha1, old(seen), A.CreateRequest(username, password, gmpLoaded, random, id), s)
    {
      CreateKeepsNames(sha1, State(), A.CreateRequest(username, password, gmpLoaded, random, id), s);
      var name, word := Canonical(username), Canonical(password);
      if !MatchesName(name) {
        reply := Failed(InvalidAccountName);
        return;
      }
      if !MatchesName(word) {
        reply := Failed(InvalidPassword);
        return;
      }
      var salt := new Byte[32](i requires 0 <= i < 32 => random[i]);
      assert salt[..] == random;
      var row := VanillaSrp6(sha1, gmpLoaded, name, word, salt);
      if row == None {
        reply := Failed(GmpMissing);
        return;
      }
      StoreAccount(name, row.value, id, s);
    }

    // ---- delete_account ----

    /** The transaction. It holds back the deletion of the account row, but not that of the realm rows. */
    method DeleteRows(username: string, id: int, s: Schedule)
      requires Recorded()
      modifies this
      ensures Outcome(State(), reply) == A.DeleteRows(old(State()), username, id, s)
      ensures Recorded() && seen == DeleteRowsSeen(old(seen), id, s)
    {
      reply := Failed(DatabaseUnavailable);
      var ok := Reach(s, Begin);
      if !ok { return; }
      ok := Reach(s, DeleteRealmRows);
      realmRows := A.RowsLeft(realmRows, id, s(DeleteRealmRows));
      Record(DropRealmRows(id, s(DeleteRealmRows)));
      if !ok { return; }
      CommitDeletion(username, id, s);
    }

    method CommitDeletion(username: string, id: int, s: Schedule)
      requires Recorded()
      modifies this
      ensures Outcome(State(), reply) == A.CommitDeletion(old(State()), username, id, s)
      ensures Recorded() && seen == CommitDeletionSeen(old(seen), id, s)
    {
      reply := Failed(DatabaseUnavailable);
      var ok := Reach(s, DeleteAccountRow);
      if !ok { return; }
      var keptAccounts := accounts - {id};
      ok := Reach(s, Commit);
      if !ok { return; }
      accounts := keptAccounts;
      Record(DropAccount(id));
      reply := Deleted(username);
    }

    method RemoveAccount(username: string, s: Schedule)
      requires Valid()
      modifies this
      ensures Outcome(State(), reply) == A.RemoveAccount(old(State()), username, s)
      ensures Recorded() && seen == RemoveAccountSeen(old(seen), username, s)
    {
      reply := Failed(DatabaseUnavailable);
      var ok := Reach(s, Connect);
      if !ok { return; }
      ok := Reach(s, FindAccount);
      if !ok { return; }
      var id := AccountId(username);
      if id == None {
        reply := Failed(AccountNotFound);
        return;
      }
      ok := Reach(s, ConnectCharacters);
      if !ok { return; }
      ok := Reach(s, CountCharacters);
      if !ok { return; }
      if exists guid :: guid in characters && characters[guid].account == id.value {
        reply := Failed(OwnsCharacters);
        return;
      }
      DeleteRows(username, id.value, s);
    }

    method DeleteAccount(username: string, confirmation: string, s: Schedule)
      requires Valid()
      modifies this
      ensures Valid()
      ensures Outcome(State(), reply) == A.DeleteAccount(old(State()), A.DeleteRequest(username, confirmation), s)
      ensures seen == DeleteAccountSeen(old(seen), A.DeleteRequest(username, confirmation), s)
    {
      DeleteKeepsNames(sha1, State(), A.DeleteRequest(username, confirmation), s);
      var name, again := Canonical(username), Canonical(confirmation);
      if name == "" || !MatchesName(name) {
        reply := Failed(InvalidAccountName);
      } else if name == "ADMIN" || name == "AHBOT" {
        reply := Failed(SystemAccount);
      } else if again != name {
        reply := Failed(NotConfirmed);
      } else {
        RemoveAccount(name, s);
      }
    }

    // ---- push_level_55 ----

    /** The UPDATE; it counts the rows it changes. */
    method UpdateLevel(guid: int, id: int) returns (affected: nat)
      modifies this`characters
      ensures affected == if A.Affects(old(State()), guid, id) then 1 else 0
      ensures State() == if A.Affects(old(State()), guid, id) then A.Pushed(old(State()), guid) else old(State())
    {
      affected := 0;
      if guid in characters && characters[guid].account == id && !characters[guid].online {
        var row := characters[guid].(level := 55, xp := 0);
        if row != characters[guid] {
          affected := 1;
        }
        characters := characters[guid := row];
      }
    }

    method RaiseLevel(username: string, guid: int, s: Schedule)
      requires Valid()
      modifies this`characters, this`files, this`reply, this`seen
      ensures Outcome(State(), reply) == A.RaiseLevel(old(State()), username, guid, s)
      ensures Recorded() && seen == RaiseLevelSeen(old(seen), username, guid, s)
    {
      reply := Failed(DatabaseUnavailable);
      var ok := Reach(s, Connect);
      if !ok { return; }
      ok := Reach(s, FindAccount);
      if !ok { return; }
      var id := AccountId(username);
      if id == None {
        reply := Failed(AccountNotFound);
        return;
      }
      RaiseOwned(guid, id.value, s);
    }

    method RaiseOwned(guid: int, id: int, s: Schedule)
      requires Recorded()
      modifies this`characters, this`files, this`reply, this`seen
      ensures Outcome(State(), reply) == A.RaiseOwned(old(State()), guid, id, s)
      ensures Recorded() && seen == RaiseOwnedSeen(old(seen), guid, id, s)
    {
      reply := Failed(DatabaseUnavailable);
      var ok := Reach(s, ConnectCharacters);
      if !ok { return; }
      ok := Reach(s, ReadCharacter);
      if !ok { return; }
      if guid !in characters || characters[guid].account != id {
        reply := Failed(NotOwned);
        return;
      }
      RaiseRead(characters[guid], guid, id, s);
    }

    method RaiseRead(row: Character, guid: int, id: int, s: Schedule)
      requires Recorded()
      modifies this`characters, this`files, this`reply, this`seen
      ensures Outcome(State(), reply) == A.RaiseRead(old(State()), row, guid, id, s)
      ensures Recorded() && seen == RaiseReadSeen(old(seen), row, guid, id, s)
    {
      if row.online {
        reply := Failed(Online);
        return;
      }
      if row.level >= 55 {
        reply := Failed(AlreadyHigh);
        return;
      }
      reply := Failed(DatabaseUnavailable);
      var ok := Reach(s, UpdateCharacter);
      if !ok { return; }
      var affected := UpdateLevel(guid, id);
      if affected > 0 {
        Record(RaiseTo55(guid));
        reply := Raised(row.name, row.level);
      } else {
        reply := Failed(NotUpdated);
      }
    }

    method PushLevel(account: string, guid: int, s: Schedule)
      requires Valid()
      modifies this`characters, this`files, this`reply, this`seen
      ensures Valid()
      ensures Outcome(State(), reply) == A.PushLevel(old(State()), A.PushRequest(account, guid), s)
      ensures seen == PushLevelSeen(old(seen), A.PushRequest(account, guid), s)
    {
      var name := Canonical(account);
      if name == "" || guid == 0 {
        reply := Failed(NoCharacterSelected);
        return;
      }
      RaiseLevel(name, guid, s);
    }

    // ---- upload_dump, download_dump, delete_dump ----

    method UploadDump(account: string, upload: Option<Upload>, s: Schedule)
      requires Valid()
      modifies this`characters, this`files, this`reply, this`seen
      ensures Valid()
      ensures Outcome(State(), reply) == B.UploadDump(old(State()), UploadRequest(account, upload), s)
      ensures seen == UploadDumpSeen(old(seen), UploadRequest(account, upload), s)
    {
      var name := Canonical(account);
      if !MatchesName(name) {
        reply := Failed(InvalidAccountName);
        return;
      }
      if upload == None {
        reply := Failed(NoUpload);
        return;
      }
      var u := upload.value;
      if u.error != 0 {
        reply := Failed(UploadFailed);
        return;
      }
      if u.size < 1 || u.size > 10 * 1024 * 1024 {
        reply := Failed(TooLarge);
        return;
      }
      if !u.isUploaded {
        reply := Failed(NotUploaded);
        return;
      }
      var targetName := SafeDumpName(u.name);
      if targetName == None {
        reply := Failed(BadFileName);
        return;
      }
      if !HasNote(u.contents) {
        reply := Failed(NotADump);
        return;
      }
      SaveUpload(StoredPath(name, targetName.value), targetName.value, u.contents, s);
    }

    method SaveUpload(target: string, file: string, contents: string, s: Schedule)
      requires Recorded()
      modifies this`characters, this`files, this`reply, this`seen
      ensures Outcome(State(), reply) == B.SaveUpload(old(State()), target, file, contents, s)
      ensures Recorded() && seen == SaveUploadSeen(old(seen), target, contents, s)
    {
      if target in files {
        reply := Failed(AlreadyExists);
        return;
      }
      var ok := Reach(s, MoveUpload);
      if !ok {
        reply := Failed(NotSaved);
        return;
      }
      files := files[target := contents];
      Record(SaveFile(target, contents));
      reply := Uploaded(file);
    }

    method DownloadDump(account: string, filename: string)
      requires Valid()
      modifies this`reply
      ensures Valid()
      ensures Outcome(State(), reply) == B.DownloadDump(old(State()), DumpRequest(account, filename))
    {
      var name, file := Canonical(account), SafeDumpName(filename);
      if file == None {
        reply := Failed(BadFileName);
      } else if !MatchesName(name) {
        reply := Failed(InvalidAccountName);
      } else if StoredPath(name, file.value) !in files {
        reply := Failed(BackupNotFound);
      } else {
        reply := Download(files[StoredPath(name, file.value)]);
      }
    }

    method DeleteDump(account: string, filename: string, s: Schedule)
      requires Valid()
      modifies this`characters, this`files, this`reply, this`seen
      ensures Valid()
      ensures Outcome(State(), reply) == B.DeleteDump(old(State()), DumpRequest(account, filename), s)
      ensures seen == DeleteDumpSeen(old(seen), DumpRequest(account, filename), s)
    {
      var name, file := Canonical(account), SafeDumpName(filename);
      if file == None {
        reply := Failed(BadFileName);
        return;
      }
      if !MatchesName(name) {
        reply := Failed(InvalidAccountName);
        return;
      }
      RemoveDump(StoredPath(name, file.value), file.value, s);
    }

    method RemoveDump(path: string, file: string, s: Schedule)
      requires Recorded()
      modifies this`characters, this`files, this`reply, this`seen
      ensures Outcome(State(), reply) == B.RemoveDump(old(State()), path, file, s)
      ensures Recorded() && seen == RemoveDumpSeen(old(seen), path, s)
    {
      reply := NothingDone;
      if path in files {
        var ok := Reach(s, Unlink(path));
        if ok {
          files := files - {path};
          Record(DropFile(path));
        }
        reply := DumpDeleted(file);
      }
    }

    // ---- create_backup ----

    /** The polling loop. */
    method AwaitDump(path: string, s: Schedule) returns (found: bool, polls: nat)
      requires Recorded()
      modifies this`characters, this`files, this`seen
      ensures if found then 1 <= polls <= 20 else polls == 20
      ensures Sighting(State(), found, polls) == PollFor(old(State()), s, path, 0, None)
      ensures Recorded() && seen == PollSeen(old(seen), s, path, 0, None)
    {
      found, polls := false, 0;
      var size: Option<nat> := None;     // what filesize last read
      while polls < 20
        invariant polls <= 20 && !found
        invariant PollFor(old(State()), s, path, 0, None) == PollFor(State(), s, path, polls, size)
        invariant Recorded() && PollSeen(old(seen), s, path, 0, None) == PollSeen(seen, s, path, polls, size)
      {
        var _ := Reach(s, Poll(polls));
        polls := polls + 1;
        if path in files {
          if size == None {
            size := Some(|files[path]|);
          }
          if size.value > 50 {
            found := true;
            break;
          }
        }
      }
    }

    method FetchDump(account: string, character: string, r: BackupRequest, s: Schedule)
      requires Recorded() && r.guid > 0
      modifies this`characters, this`files, this`reply, this`seen
      ensures Outcome(State(), reply) == B.FetchDump(old(State()), account, character, r, s)
      ensures Recorded() && seen == FetchDumpSeen(old(seen), account, character, r, s)
    {
      var ok := Reach(s, SendCommand);
      if !ok {
        reply := Failed(CommandNotSent);
        return;
      }
      var path := TempDumpPath(r.guid, r.time);
      var found, _ := AwaitDump(path, s);
      if !found {
        reply := Failed(NoDumpAppeared);
        return;
      }
      MoveDump(path, StoredPath(account, BackupName(character, r.stamp)), character, s);
    }

    method MoveDump(path: string, target: string, character: string, s: Schedule)
      requires Recorded()
      modifies this`characters, this`files, this`reply, this`seen
      ensures Outcome(State(), reply) == B.MoveDump(old(State()), path, target, character, s)
      ensures Recorded() && seen == MoveDumpSeen(old(seen), path, target, s)
    {
      reply := Failed(NotMoved);
      var ok := Reach(s, Rename);
      if ok && path in files {
        var contents := files[path];
        files := files - {path};
        files := files[target := contents];
        Record(MoveFile(path, target));
        reply := BackedUp(character);
      }
    }

    method SaveCharacter(account: string, r: BackupRequest, s: Schedule)
      requires Valid() && r.guid > 0
      modifies this`characters, this`files, this`reply, this`seen
      ensures Outcome(State(), reply) == B.SaveCharacter(old(State()), account, r, s)
      ensures Recorded() && seen == SaveCharacterSeen(old(seen), account, r, s)
    {
      reply := Failed(DatabaseUnavailable);
      var ok := Reach(s, Connect);
      if !ok { return; }
      ok := Reach(s, FindAccount);
      if !ok { return; }
      var id := AccountId(account);
      if id == None || id.value == 0 {
        reply := Failed(AccountNotFound);
        return;
      }
      SaveOwned(account, id.value, r, s);
    }

    method SaveOwned(account: string, id: int, r: BackupRequest, s: Schedule)
      requires Recorded() && r.guid > 0
      modifies this`characters, this`files, this`reply, this`seen
      ensures Outcome(State(), reply) == B.SaveOwned(old(State()), account, id, r, s)
      ensures Recorded() && seen == SaveOwnedSeen(old(seen), account, id, r, s)
    {
      reply := Failed(DatabaseUnavailable);
      var ok := Reach(s, ConnectCharacters);
      if !ok { return; }
      ok := Reach(s, ReadCharacter);
      if !ok { return; }
      if r.guid !in characters || characters[r.guid].account != id || characters[r.guid].name in ["", "0"] {
        reply := Failed(NotOwned);
        return;
      }
      FetchDump(account, characters[r.guid].name, r, s);
    }

    method CreateBackup(r: BackupRequest, s: Schedule)
      requires Valid()
      modifies this`characters, this`files, this`reply, this`seen
      ensures Valid()
      ensures Outcome(State(), reply) == B.CreateBackup(old(State()), r, s)
      ensures seen == CreateBackupSeen(old(seen), r, s)
    {
      var ok := Reach(s, ServerCheck);
      if !ok {
        reply := Failed(ServerDown);
        return;
      }
      var name := Canonical(r.account);
      if !MatchesName(name) {
        reply := Failed(InvalidAccountName);
        return;
      }
      if r.guid <= 0 {
        reply := Failed(NoCharacterSelected);
        return;
      }
      SaveCharacter(name, r, s);
    }

    // ---- restore_backup ----

    /** The cleanup loop, over the listing in whatever order. */
    method RemoveOldLoads(listing: seq<string>, s: Schedule)
      requires Recorded()
      modifies this`characters, this`files, this`seen
      ensures State() == Cleanup(old(State()), listing, s)
      ensures Recorded() && seen == CleanupSeen(old(seen), listing, s)
    {
      var i := 0;
      while i < |listing|
        invariant 0 <= i <= |listing| && State() == Cleanup(old(State()), listing[..i], s)
        invariant Recorded() && seen == CleanupSeen(old(seen), listing[..i], s)
      {
        var path := listing[i];
        var ok := Reach(s, Unlink(path));
        if ok {
          files := files - {path};
          Record(DropFile(path));
        }
        i := i + 1;
        assert listing[..i][..i - 1] == listing[..i - 1];
      }
      assert listing[..i] == listing;
    }

    method LoadDump(path: string, file: string, target: string, time: nat, listing: seq<string>, s: Schedule)
      requires Recorded()
      modifies this`characters, this`files, this`reply, this`seen
      ensures Outcome(State(), reply) == B.LoadDump(old(State()), path, file, target, time, listing, s)
      ensures Recorded() && seen == LoadDumpSeen(old(seen), path, time, listing, s)
    {
      var ok := Reach(s, Glob);
      if ok && IsListing(listing, files) {
        RemoveOldLoads(listing, s);
      }
      CopyDump(path, file, target, TempLoadPath(time), s);
    }

    method CopyDump(path: string, file: string, target: string, temp: string, s: Schedule)
      requires Recorded()
      modifies this`characters, this`files, this`reply, this`seen
      ensures Outcome(State(), reply) == B.CopyDump(old(State()), path, file, target, temp, s)
      ensures Recorded() && seen == CopyDumpSeen(old(seen), path, temp, s)
    {
      var ok := Reach(s, Copy);
      if !ok || path !in files {
        reply := Failed(NotCopied);
        return;
      }
      files := files[temp := files[path]];
      Record(CopyFile(path, temp));
      SendLoad(file, target, temp, s);
    }

    method SendLoad(file: string, target: string, temp: string, s: Schedule)
      requires Recorded()
      modifies this`characters, this`files, this`reply, this`seen
      ensures Outcome(State(), reply) == B.SendLoad(old(State()), file, target, temp, s)
      ensures Recorded() && seen == SendLoadSeen(old(seen), temp, s)
    {
      var ok := Reach(s, SendCommand);
      if ok {
        reply := Restoring(file, target);
      } else {
        ok := Reach(s, UnlinkTemp);
        if ok {
          files := files - {temp};
          Record(DropFile(temp));
        }
        reply := Failed(CommandNotSent);
      }
    }

    method RestoreBackup(account: string, filename: string, target: string, time: nat, listing: seq<string>, s: Schedule)
      requires Valid()
      modifies this`characters, this`files, this`reply, this`seen
      ensures Valid()
      ensures Outcome(State(), reply)
           == B.RestoreBackup(old(State()), RestoreRequest(account, filename, target, time, listing), s)
      ensures seen == RestoreBackupSeen(old(seen), RestoreRequest(account, filename, target, time, listing), s)
    {
      var ok := Reach(s, ServerCheck);
      if !ok {
        reply := Failed(ServerDown);
        return;
      }
      var name, file, receiver := Canonical(account), SafeDumpName(filename), Canonical(target);
      if file == None {
        reply := Failed(BadFileName);
        return;
      }
      if !MatchesName(name) || !MatchesName(receiver) {
        reply := Failed(InvalidAccountName);
        return;
      }
      var path := StoredPath(name, file.value);
      if path !in files {
        reply := Failed(BackupNotFound);
        return;
      }
      LoadDump(path, file.value, receiver, time, listing, s);
    }

    // ---- the request ----

    /** One POST request. */
    method Post(q: S.Request)
      requires Valid()
      modifies this
      ensures Valid()
      ensures Outcome(State(), reply) == S.Serve(sha1, session, old(State()), q)
      ensures seen == ServeSeen(sha1, session, old(seen), q)
    {
      if q.token == "" || session == "" || q.token != session {
        reply := Failed(RequestExpired);
        return;
      }
      Perform(q.action, q.schedule);
    }

    method Perform(action: S.Action, s: Schedule)
      requires Valid()
      modifies this
      ensures Valid()
      ensures Outcome(State(), reply) == S.Perform(sha1, old(State()), action, s)
      ensures seen == PerformSeen(sha1, old(seen), action, s)
    {
      if action.Create? || action.Delete? || action.Push? {
        PerformOnDatabases(action, s);
      } else {
        PerformOnFiles(action, s);
      }
    }

    method PerformOnDatabases(action: S.Action, s: Schedule)
      requires Valid() && (action.Create? || action.Delete? || action.Push?)
      modifies this
      ensures Valid()
      ensures Outcome(State(), reply) == S.Perform(sha1, old(State()), action, s)
      ensures seen == PerformSeen(sha1, old(seen), action, s)
    {
      match action
      case Create(r) => CreateAccount(r.username, r.password, r.gmpLoaded, r.random, r.id, s);
      case Delete(r) => DeleteAccount(r.username, r.confirmation, s);
      case Push(r) => PushLevel(r.account, r.guid, s);
    }

    method PerformOnFiles(action: S.Action, s: Schedule)
      requires Valid() && !(action.Create? || action.Delete? || action.Push?)
      modifies this
      ensures Valid()
      ensures Outcome(State(), reply) == S.Perform(sha1, old(State()), action, s)
      ensures seen == PerformSeen(sha1, old(seen), action, s)
    {
      match action
      case UploadFile(r) => UploadDump(r.account, r.upload, s);
      case DownloadFile(r) => DownloadDump(r.account, r.filename);
      case DeleteFile(r) => DeleteDump(r.account, r.filename, s);
      case Backup(r) => CreateBackup(r, s);
      case Restore(r) => RestoreBackup(r.account, r.filename, r.target, r.time, r.listing, s);
      case Unknown => reply := NothingDone;
    }

    // ---- runs ----

    method Handle(e: S.Event)
      requires Valid()
      modifies this
      ensures Valid()
      ensures State() == S.Apply(sha1, session, old(State()), e)
      ensures seen == ApplySeen(sha1, session, old(seen), e)
    {
      match e {
        case Game(step) => GameStepTaken(step);
        case Post(q) => Post(q);
      }
    }

    method HandleAll(events: seq<S.Event>)
      requires Valid()
      modifies this
      ensures Valid()
      ensures State() == S.Run(sha1, session, old(State()), events)
      ensures seen == RunSeen(sha1, session, old(seen), events)
    {
      var i := 0;
      while i < |events|
        invariant 0 <= i <= |events| && Valid()
        invariant State() == S.Run(sha1, session, old(State()), events[..i])
        invariant seen == RunSeen(sha1, session, old(seen), events[..i])
      {
        Handle(events[i]);
        RunLast(sha1, session, old(State()), old(seen), events, i);
        i := i + 1;
      }
      assert events[..i] == events;
    }

    /** What holds after any events and in every world in between: how each world comes from the one
        before, the row invariants, the owners, the backups and the load files. */
    method HandleRun(events: seq<S.Event>)
      requires Valid()
      modifies this
      ensures Valid() && State() == S.Run(sha1, session, old(State()), events)
      ensures old(|seen|) <= |seen| && seen[..old(|seen|)] == old(seen)
      ensures forall k :: old(|seen|) <= k < |seen| ==>
                && ChangedInRun(sha1, session, old(State()), events, seen[k - 1], seen[k])
                && RowsKept(sha1, old(State()), seen[k])
      ensures old(CharactersOwned(State())) ==>
                (QuietDeletions(sha1, session, old(State()), events) <==> OwnedFrom(seen, old(|seen|) - 1))
      ensures forall path, k :: InStore(path) && path in old(files) && Untouched(sha1, session, old(State()), events, path)
                                && old(|seen|) <= k < |seen| ==>
                path in seen[k].files && seen[k].files[path] == old(files)[path]
      ensures AtMostOne(TempLoads(old(files))) && DeletableThroughout(sha1, session, old(State()), events) ==>
                OneLoadFrom(seen, old(|seen|) - 1)
    {
      ghost var h := seen;
      HandleAll(events);
      RunSeenEnds(sha1, session, h, events);
      forall k | |h| <= k < |seen|
        ensures ChangedInRun(sha1, session, Now(h), events, seen[k - 1], seen[k]) && RowsKept(sha1, Now(h), seen[k])
      {
        RunSeenChanges(sha1, session, h, events, k);
        VisibleRowsKept(sha1, session, h, events, k);
      }
      if CharactersOwned(Now(h)) {
        VisibleOwners(sha1, session, h, events);
      }
      forall path, k | InStore(path) && path in Now(h).files && Untouched(sha1, session, Now(h), events, path)
                       && |h| <= k < |seen|
        ensures path in seen[k].files && seen[k].files[path] == Now(h).files[path]
      {
        VisibleBackupKept(sha1, session, h, events, path, k);
      }
      if AtMostOne(TempLoads(Now(h).files)) && DeletableThroughout(sha1, session, Now(h), events) {
        VisibleOneLoad(sha1, session, h, events);
      }
    }
  }
}
