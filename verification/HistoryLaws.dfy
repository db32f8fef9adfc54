/** Every world that can be seen while a run is under way: what separates it from the one before, and
    the invariants it keeps. */
module HistoryLaws {
  import opened AccountLaws
  import opened Accounts
  import opened Backups
  import opened BackupLaws
  import opened Histories
  import opened Names
  import opened Options
  import opened Site
  import opened SiteLaws
  import opened Srp6
  import opened Text
  import opened World

  // ---- one change after the other ----

  /** A request that is being served: what it asks for, and what it will be told. */
  datatype Call = Call(sha1: Hash, action: Action, reply: Reply)

  ghost predicate Registers(sha1: Hash, r: CreateRequest, id: int, account: Account) {
    var row := StoredRow(sha1, Canonical(r.username), Canonical(r.password), r.random);
    Admissible(r) && id == r.id && account == Account(Canonical(r.username), row.verifier, row.salt)
  }

  ghost predicate Removes(r: DeleteRequest, w: World, id: int) {
    Confirmed(r) && id in w.accounts && w.accounts[id].username == Canonical(r.username)
  }

  ghost predicate Named(w: World, id: int, username: string) {
    id in w.accounts && w.accounts[id].username == username
  }

  /** The writes the page makes to serve the request, in the worlds in which it makes them: only the
      rows and files of the request. */
  ghost predicate Permitted(c: Call, w: World, x: Write) {
    match x
    case AddAccount(id, account) =>
      c.action.Create? && Registers(c.sha1, c.action.create, id, account)
      && id !in w.accounts && !Taken(w.accounts, account.username)
    case AddRealmRows(id, realms) =>
      c.action.Create? && id == c.action.create.id && id in w.accounts && realms <= w.realms
    case DropRealmRows(id, _) => c.action.Delete? && Removes(c.action.delete, w, id)
    case DropAccount(id) =>
      c.action.Delete? && Removes(c.action.delete, w, id) && c.reply.Deleted?
      && forall key :: key in w.realmRows ==> key.1 != id
    case RaiseTo55(guid) =>
      c.action.Push? && guid == c.action.push.guid && c.reply.Raised?
      && guid in w.characters && !w.characters[guid].online
      && Named(w, w.characters[guid].account, Canonical(c.action.push.account))
    case SaveFile(path, contents) =>
      c.action.UploadFile? && c.reply.Uploaded? && path !in w.files
      && path == StoredPath(Canonical(c.action.upload.account), c.reply.file)
      && c.action.upload.upload.Some? && contents == c.action.upload.upload.value.contents
    case DropFile(path) =>
      || (c.action.DeleteFile? && c.reply.DumpDeleted?
          && Addresses(c.action.unlink, Canonical(c.action.unlink.account), c.reply.file)
          && path == StoredPath(Canonical(c.action.unlink.account), c.reply.file))
      || (c.action.Restore? && IsTempLoad(path))
    case CopyFile(source, target) =>
      c.action.Restore? && source in w.files && target == TempLoadPath(c.action.restore.time)
      && LooksAt(DumpRequest(c.action.restore.account, c.action.restore.filename), source)
    case MoveFile(source, target) =>
      c.action.Backup? && c.reply.BackedUp? && c.action.backup.guid > 0 && source in w.files
      && source == TempDumpPath(c.action.backup.guid, c.action.backup.time)
      && target == StoredPath(Canonical(c.action.backup.account), BackupName(c.reply.character, c.action.backup.stamp))
  }

  /** One step of the game server, or one permitted write that drops no account. */
  ghost predicate Gentle(c: Call, a: World, b: World) {
    || (exists step :: b == Play(a, step))
    || (exists x :: Permitted(c, a, x) && !x.DropAccount? && b == Written(a, x))
  }

  /** The permitted loss of one account. */
  ghost predicate Drops(c: Call, a: World, b: World) {
    exists id :: Permitted(c, a, DropAccount(id)) && b == Written(a, DropAccount(id))
  }

  /** The history goes on from the earlier one by such changes only. */
  ghost predicate Since(c: Call, h0: History, h: History)
    decreases |h|
  {
    || h == h0
    || (|h| > |h0| && Since(c, h0, h[..|h| - 1]) && Gentle(c, h[|h| - 2], h[|h| - 1]))
  }

  /** It goes on by such changes and ends with the loss of one account that has no realm rows. */
  ghost predicate SinceDrop(c: Call, h0: History, h: History) {
    var n := |h| - 1;
    n >= |h0| && Since(c, h0, h[..n]) && Drops(c, h[n - 1], h[n])
  }

  lemma SinceNext(c: Call, h0: History, h: History, w: World)
    requires Since(c, h0, h) && Gentle(c, Now(h), w)
    ensures Since(c, h0, h + [w])
  {
    SinceLonger(c, h0, h);
    assert (h + [w])[..|h + [w]| - 1] == h;
  }

  lemma {:induction false} SinceLonger(c: Call, h0: History, h: History)
    requires Since(c, h0, h)
    ensures |h| >= |h0| && h[..|h0|] == h0
  {
    if h != h0 {
      SinceLonger(c, h0, h[..|h| - 1]);
    }
  }

  lemma {:induction false} SinceWatched(c: Call, h0: History, h: History, steps: seq<GameStep>)
    requires Since(c, h0, h)
    ensures Since(c, h0, Watched(h, steps))
  {
    if steps != [] {
      SinceWatched(c, h0, h, steps[..|steps| - 1]);
      var g := Watched(h, steps[..|steps| - 1]);
      SinceNext(c, h0, g, Play(Now(g), steps[|steps| - 1]));
    }
  }

  lemma SincePassed(c: Call, h0: History, h: History, s: Schedule, p: Point)
    requires Since(c, h0, h)
    ensures Since(c, h0, Passed(h, s, p))
  {
    SinceWatched(c, h0, h, s(p).steps);
  }

  lemma SinceThen(c: Call, h0: History, h: History, x: Write)
    requires Since(c, h0, h) && Permitted(c, Now(h), x) && !x.DropAccount?
    ensures Since(c, h0, Then(h, x))
  {
    SinceNext(c, h0, h, Written(Now(h), x));
  }

  // ---- the database actions ----

  lemma InsertRowsEnds(h: History, username: string, row: Row, id: int, s: Schedule)
    ensures Now(InsertRowsSeen(h, username, row, id, s)) == InsertRows(Now(h), username, row, id, s).world
  {
  }

  lemma InsertRowsSince(c: Call, h0: History, h: History, username: string, row: Row, id: int, s: Schedule)
    requires Since(c, h0, h) && !Taken(Now(h).accounts, username)
    requires c.action.Create? && Registers(c.sha1, c.action.create, id, Account(username, row.verifier, row.salt))
    ensures var g := InsertRowsSeen(h, username, row, id, s);
            Since(c, h0, g) && Now(g) == InsertRows(Now(h), username, row, id, s).world
  {
    InsertRowsEnds(h, username, row, id, s);
    SincePassed(c, h0, h, s, InsertAccount);
    var h1 := Passed(h, s, InsertAccount);
    if s(InsertAccount).ok && id !in Now(h1).accounts {
      var x := AddAccount(id, Account(username, row.verifier, row.salt));
      SinceThen(c, h0, h1, x);
      var added := Then(h1, x);
      assert id in Now(added).accounts;
      SincePassed(c, h0, added, s, InsertRealmRows);
      var h2 := Passed(added, s, InsertRealmRows);
      SinceThen(c, h0, h2, AddRealmRows(id, Handled(Now(h2).realms, s(InsertRealmRows))));
    }
  }

  lemma StoreAccountShape(h: History, username: string, row: Row, id: int, s: Schedule)
    ensures var g, o := StoreAccountSeen(h, username, row, id, s), StoreAccount(Now(h), username, row, id, s);
            var h1 := Passed(h, s, Connect);
            var h2 := Passed(h1, s, FindAccount);
            || (g == h1 && o.world == Now(h1))
            || (g == h2 && o.world == Now(h2))
            || (&& !Taken(Now(h2).accounts, username)
                && g == InsertRowsSeen(h2, username, row, id, s) && o == InsertRows(Now(h2), username, row, id, s))
  {
  }

  lemma StoreAccountSince(c: Call, h0: History, h: History, username: string, row: Row, id: int, s: Schedule)
    requires Since(c, h0, h)
    requires c.action.Create? && Registers(c.sha1, c.action.create, id, Account(username, row.verifier, row.salt))
    ensures var g := StoreAccountSeen(h, username, row, id, s);
            Since(c, h0, g) && Now(g) == StoreAccount(Now(h), username, row, id, s).world
  {
    StoreAccountShape(h, username, row, id, s);
    SincePassed(c, h0, h, s, Connect);
    var h1 := Passed(h, s, Connect);
    SincePassed(c, h0, h1, s, FindAccount);
    var h2 := Passed(h1, s, FindAccount);
    if !Taken(Now(h2).accounts, username) {
      InsertRowsSince(c, h0, h2, username, row, id, s);
    }
  }

  lemma CreateAccountSince(c: Call, h0: History, h: History, r: CreateRequest, s: Schedule)
    requires Since(c, h0, h) && c.action == Create(r)
    ensures var g := CreateAccountSeen(c.sha1, h, r, s);
            Since(c, h0, g) && Now(g) == CreateAccount(c.sha1, Now(h), r, s).world
  {
    var username := Canonical(r.username);
    CanonicalNames(r.username);
    CanonicalNames(r.password);
    CreateAccountParts(c.sha1, Now(h), r, s);
    if Admissible(r) {
      StoreAccountSince(c, h0, h, username, StoredRow(c.sha1, username, Canonical(r.password), r.random), r.id, s);
    }
  }

  /** The history when the transaction is about to commit, each point having been passed. */
  ghost function BeforeCommit(h: History, id: int, s: Schedule): History {
    var h := Passed(Passed(h, s, Begin), s, DeleteRealmRows);
    Passed(Passed(Then(h, DropRealmRows(id, s(DeleteRealmRows))), s, DeleteAccountRow), s, Commit)
  }

  lemma DeleteRowsShape(h: History, username: string, id: int, s: Schedule)
    ensures var g := DeleteRowsSeen(h, id, s);
            var h1 := Passed(h, s, Begin);
            var h2 := Then(Passed(h1, s, DeleteRealmRows), DropRealmRows(id, s(DeleteRealmRows)));
            && Now(g) == DeleteRows(Now(h), username, id, s).world
            && g == (if !s(Begin).ok then h1
                     else if !s(DeleteRealmRows).ok then h2
                     else if !s(DeleteAccountRow).ok then Passed(h2, s, DeleteAccountRow)
                     else if !s(Commit).ok then BeforeCommit(h, id, s)
                     else Then(BeforeCommit(h, id, s), DropAccount(id)))
  {
  }

  lemma BeforeCommitSince(c: Call, h0: History, h: History, id: int, s: Schedule)
    requires Since(c, h0, h) && c.action.Delete? && Removes(c.action.delete, Now(h), id)
    ensures Since(c, h0, Passed(h, s, Begin))
    ensures var h2 := Then(Passed(Passed(h, s, Begin), s, DeleteRealmRows), DropRealmRows(id, s(DeleteRealmRows)));
            Since(c, h0, h2) && Since(c, h0, Passed(h2, s, DeleteAccountRow))
    ensures Since(c, h0, BeforeCommit(h, id, s))
  {
    SincePassed(c, h0, h, s, Begin);
    var h1 := Passed(h, s, Begin);
    SincePassed(c, h0, h1, s, DeleteRealmRows);
    var x := DropRealmRows(id, s(DeleteRealmRows));
    SinceThen(c, h0, Passed(h1, s, DeleteRealmRows), x);
    var h2 := Then(Passed(h1, s, DeleteRealmRows), x);
    SincePassed(c, h0, h2, s, DeleteAccountRow);
    SincePassed(c, h0, Passed(h2, s, DeleteAccountRow), s, Commit);
  }

  lemma DropIsLast(c: Call, h0: History, h: History, id: int)
    requires Since(c, h0, h) && Permitted(c, Now(h), DropAccount(id))
    ensures SinceDrop(c, h0, Then(h, DropAccount(id)))
  {
    SinceLonger(c, h0, h);
    var g := Then(h, DropAccount(id));
    assert g[..|g| - 1] == h;
    assert Drops(c, Now(h), Now(g));
  }

  lemma DeleteRowsSince(c: Call, h0: History, h: History, username: string, id: int, s: Schedule)
    requires Since(c, h0, h) && c.action.Delete? && Removes(c.action.delete, Now(h), id)
    requires c.reply == DeleteRows(Now(h), username, id, s).reply
    ensures var g := DeleteRowsSeen(h, id, s);
            && Now(g) == DeleteRows(Now(h), username, id, s).world
            && (if CommitsWith(s) then SinceDrop(c, h0, g) else Since(c, h0, g))
  {
    DeleteRowsShape(h, username, id, s);
    BeforeCommitSince(c, h0, h, id, s);
    DeleteRowsReply(Now(h), username, id, s);
    if CommitsWith(s) {
      DropIsLast(c, h0, BeforeCommit(h, id, s), id);
    }
  }

  /** Ends with the loss of an account exactly when the request succeeds. */
  ghost predicate Steady(c: Call, h0: History, h: History, dropped: bool) {
    if dropped then SinceDrop(c, h0, h) else Since(c, h0, h)
  }

  lemma FourPassed(c: Call, h0: History, h: History, s: Schedule, p: Point, q: Point)
    requires Since(c, h0, h)
    ensures var h2 := Passed(Passed(h, s, Connect), s, FindAccount);
            && Since(c, h0, Passed(h, s, Connect)) && Since(c, h0, h2)
            && Since(c, h0, Passed(h2, s, p)) && Since(c, h0, Passed(Passed(h2, s, p), s, q))
  {
    SincePassed(c, h0, h, s, Connect);
    SincePassed(c, h0, Passed(h, s, Connect), s, FindAccount);
    var h2 := Passed(Passed(h, s, Connect), s, FindAccount);
    SincePassed(c, h0, h2, s, p);
    SincePassed(c, h0, Passed(h2, s, p), s, q);
  }

  lemma RemoveAccountShape(h: History, username: string, s: Schedule)
    ensures var g, o := RemoveAccountSeen(h, username, s), RemoveAccount(Now(h), username, s);
            var h1 := Passed(h, s, Connect);
            var h2 := Passed(h1, s, FindAccount);
            var h3 := Passed(h2, s, ConnectCharacters);
            var h4 := Passed(h3, s, CountCharacters);
            var id := Lookup(Now(h2).accounts, username);
            if s(Connect).ok && s(FindAccount).ok && id.Some? && s(ConnectCharacters).ok && s(CountCharacters).ok
               && !OwnsCharacter(Now(h4), id.value)
            then g == DeleteRowsSeen(h4, id.value, s) && o == DeleteRows(Now(h4), username, id.value, s)
            else Now(g) == o.world && o.reply.Failed? && (g == h1 || g == h2 || g == h3 || g == h4)
  {
  }

  lemma RemoveAccountSince(c: Call, h0: History, h: History, username: string, s: Schedule)
    requires Since(c, h0, h) && c.reply == RemoveAccount(Now(h), username, s).reply
    requires c.action.Delete? && Confirmed(c.action.delete) && username == Canonical(c.action.delete.username)
    ensures var g := RemoveAccountSeen(h, username, s); var o := RemoveAccount(Now(h), username, s);
            Now(g) == o.world && Steady(c, h0, g, o.reply.Deleted?)
  {
    RemoveAccountShape(h, username, s);
    FourPassed(c, h0, h, s, ConnectCharacters, CountCharacters);
    var h2 := Passed(Passed(h, s, Connect), s, FindAccount);
    var h4 := Passed(Passed(h2, s, ConnectCharacters), s, CountCharacters);
    var id := Lookup(Now(h2).accounts, username);
    DeleteRowsReply(Now(h4), username, if id.Some? then id.value else 0, s);
    if id.Some? && c.reply == DeleteRows(Now(h4), username, id.value, s).reply {
      DeleteRowsSince(c, h0, h4, username, id.value, s);
    }
  }

  lemma DeleteRowsReply(w: World, username: string, id: int, s: Schedule)
    ensures DeleteRows(w, username, id, s).reply == if CommitsWith(s) then Deleted(username) else Failed(DatabaseUnavailable)
  {
  }

  lemma DeleteAccountSince(c: Call, h0: History, h: History, r: DeleteRequest, s: Schedule)
    requires Since(c, h0, h) && c.action == Delete(r) && c.reply == DeleteAccount(Now(h), r, s).reply
    ensures var g := DeleteAccountSeen(h, r, s); var o := DeleteAccount(Now(h), r, s);
            Now(g) == o.world && Steady(c, h0, g, o.reply.Deleted?)
  {
    CanonicalNames(r.username);
    DeleteAccountParts(Now(h), r, s);
    if Confirmed(r) {
      RemoveAccountSince(c, h0, h, Canonical(r.username), s);
    }
  }

  lemma RaiseReadSince(c: Call, h0: History, h: History, read: Character, guid: int, id: int, s: Schedule)
    requires Since(c, h0, h) && c.reply == RaiseRead(Now(h), read, guid, id, s).reply
    requires c.action.Push? && guid == c.action.push.guid && Named(Now(h), id, Canonical(c.action.push.account))
    ensures var g := RaiseReadSeen(h, read, guid, id, s);
            Since(c, h0, g) && Now(g) == RaiseRead(Now(h), read, guid, id, s).world
  {
    SincePassed(c, h0, h, s, UpdateCharacter);
    var h1 := Passed(h, s, UpdateCharacter);
    if Affects(Now(h1), guid, id) && c.reply.Raised? {
      SinceThen(c, h0, h1, RaiseTo55(guid));
    }
  }

  lemma RaiseOwnedEnds(h: History, guid: int, id: int, s: Schedule)
    ensures Now(RaiseOwnedSeen(h, guid, id, s)) == RaiseOwned(Now(h), guid, id, s).world
  {
  }

  lemma RaiseOwnedSince(c: Call, h0: History, h: History, guid: int, id: int, s: Schedule)
    requires Since(c, h0, h) && c.reply == RaiseOwned(Now(h), guid, id, s).reply
    requires c.action.Push? && guid == c.action.push.guid && Named(Now(h), id, Canonical(c.action.push.account))
    ensures var g := RaiseOwnedSeen(h, guid, id, s);
            Since(c, h0, g) && Now(g) == RaiseOwned(Now(h), guid, id, s).world
  {
    RaiseOwnedEnds(h, guid, id, s);
    SincePassed(c, h0, h, s, ConnectCharacters);
    var h1 := Passed(h, s, ConnectCharacters);
    SincePassed(c, h0, h1, s, ReadCharacter);
    var h2 := Passed(h1, s, ReadCharacter);
    if s(ConnectCharacters).ok && s(ReadCharacter).ok && Owned(Now(h2), guid, id) {
      RaiseReadSince(c, h0, h2, Now(h2).characters[guid], guid, id, s);
    }
  }

  lemma RaiseLevelShape(h: History, username: string, guid: int, s: Schedule)
    ensures var g, o := RaiseLevelSeen(h, username, guid, s), RaiseLevel(Now(h), username, guid, s);
            var h1 := Passed(h, s, Connect);
            var h2 := Passed(h1, s, FindAccount);
            var id := Lookup(Now(h2).accounts, username);
            || (g == h1 && o.world == Now(h1))
            || (g == h2 && o.world == Now(h2))
            || (id.Some? && g == RaiseOwnedSeen(h2, guid, id.value, s) && o == RaiseOwned(Now(h2), guid, id.value, s))
  {
  }

  lemma RaiseLevelSince(c: Call, h0: History, h: History, username: string, guid: int, s: Schedule)
    requires Since(c, h0, h) && c.reply == RaiseLevel(Now(h), username, guid, s).reply
    requires c.action.Push? && guid == c.action.push.guid && username == Canonical(c.action.push.account)
    ensures var g := RaiseLevelSeen(h, username, guid, s);
            Since(c, h0, g) && Now(g) == RaiseLevel(Now(h), username, guid, s).world
  {
    RaiseLevelShape(h, username, guid, s);
    SincePassed(c, h0, h, s, Connect);
    var h1 := Passed(h, s, Connect);
    SincePassed(c, h0, h1, s, FindAccount);
    var h2 := Passed(h1, s, FindAccount);
    var id := Lookup(Now(h2).accounts, username);
    if s(Connect).ok && s(FindAccount).ok && id.Some? {
      RaiseOwnedSince(c, h0, h2, guid, id.value, s);
    }
  }

  lemma PushLevelSince(c: Call, h0: History, h: History, r: PushRequest, s: Schedule)
    requires Since(c, h0, h) && c.action == Push(r) && c.reply == PushLevel(Now(h), r, s).reply
    ensures var g := PushLevelSeen(h, r, s); Since(c, h0, g) && Now(g) == PushLevel(Now(h), r, s).world
  {
    if Canonical(r.account) != "" && r.guid != 0 {
      RaiseLevelSince(c, h0, h, Canonical(r.account), r.guid, s);
    }
  }

  // ---- the file actions ----

  lemma SaveUploadSince(c: Call, h0: History, h: History, path: string, file: string, contents: string, s: Schedule)
    requires Since(c, h0, h) && c.reply == SaveUpload(Now(h), path, file, contents, s).reply
    requires c.action.UploadFile? && path == StoredPath(Canonical(c.action.upload.account), file) && InStore(path)
    requires c.action.upload.upload.Some? && contents == c.action.upload.upload.value.contents
    ensures var g := SaveUploadSeen(h, path, contents, s);
            Since(c, h0, g) && Now(g) == SaveUpload(Now(h), path, file, contents, s).world
  {
    SincePassed(c, h0, h, s, MoveUpload);
    var h1 := Passed(h, s, MoveUpload);
    ArriveKeeps(Now(h), s, MoveUpload);
    if path !in Now(h).files && s(MoveUpload).ok {
      SinceThen(c, h0, h1, SaveFile(path, contents));
    }
  }

  lemma UploadDumpShape(h: History, r: UploadRequest, s: Schedule)
    ensures var g, o := UploadDumpSeen(h, r, s), UploadDump(Now(h), r, s);
            || (g == h && o.world == Now(h))
            || (&& r.upload.Some? && SafeDumpName(r.upload.value.name).Some?
                && var file := SafeDumpName(r.upload.value.name).value; var path := StoredPath(Canonical(r.account), file);
                   && g == SaveUploadSeen(h, path, r.upload.value.contents, s)
                   && o == SaveUpload(Now(h), path, file, r.upload.value.contents, s))
  {
  }

  lemma UploadDumpSince(c: Call, h0: History, h: History, r: UploadRequest, s: Schedule)
    requires Since(c, h0, h) && c.action == UploadFile(r) && c.reply == UploadDump(Now(h), r, s).reply
    ensures var g := UploadDumpSeen(h, r, s); Since(c, h0, g) && Now(g) == UploadDump(Now(h), r, s).world
  {
    UploadDumpShape(h, r, s);
    if r.upload.Some? && SafeDumpName(r.upload.value.name).Some? {
      var file := SafeDumpName(r.upload.value.name).value;
      var path := StoredPath(Canonical(r.account), file);
      GeneratedPaths(Canonical(r.account), file, 0, 0);
      if c.reply == SaveUpload(Now(h), path, file, r.upload.value.contents, s).reply {
        SaveUploadSince(c, h0, h, path, file, r.upload.value.contents, s);
      }
    }
  }

  lemma RemoveDumpSince(c: Call, h0: History, h: History, path: string, file: string, s: Schedule)
    requires Since(c, h0, h) && c.reply == RemoveDump(Now(h), path, file, s).reply
    requires c.action.DeleteFile? && path == StoredPath(Canonical(c.action.unlink.account), file)
    requires SafeDumpName(c.action.unlink.filename) == Some(file)
    ensures var g := RemoveDumpSeen(h, path, s); Since(c, h0, g) && Now(g) == RemoveDump(Now(h), path, file, s).world
  {
    SincePassed(c, h0, h, s, Unlink(path));
    var h1 := Passed(h, s, Unlink(path));
    if path in Now(h).files {
      SinceThen(c, h0, h1, DropFile(path));
    }
  }

  lemma DeleteDumpShape(h: History, r: DumpRequest, s: Schedule)
    ensures var g, o := DeleteDumpSeen(h, r, s), DeleteDump(Now(h), r, s);
            || (g == h && o.world == Now(h))
            || (&& SafeDumpName(r.filename).Some?
                && var file := SafeDumpName(r.filename).value; var path := StoredPath(Canonical(r.account), file);
                   g == RemoveDumpSeen(h, path, s) && o == RemoveDump(Now(h), path, file, s))
  {
  }

  lemma DeleteDumpSince(c: Call, h0: History, h: History, r: DumpRequest, s: Schedule)
    requires Since(c, h0, h) && c.action == DeleteFile(r) && c.reply == DeleteDump(Now(h), r, s).reply
    ensures var g := DeleteDumpSeen(h, r, s); Since(c, h0, g) && Now(g) == DeleteDump(Now(h), r, s).world
  {
    DeleteDumpShape(h, r, s);
    if SafeDumpName(r.filename).Some? {
      var file := SafeDumpName(r.filename).value;
      var path := StoredPath(Canonical(r.account), file);
      if c.reply == RemoveDump(Now(h), path, file, s).reply {
        RemoveDumpSince(c, h0, h, path, file, s);
      }
    }
  }

  lemma {:induction false} PollEnds(h: History, s: Schedule, path: string, i: nat, remembered: Option<nat>)
    requires i <= POLLS
    ensures Now(PollSeen(h, s, path, i, remembered)) == PollFor(Now(h), s, path, i, remembered).world
    decreases POLLS - i
  {
    if i < POLLS {
      var h1 := Passed(h, s, Poll(i));
      if path in Now(h1).files {
        var size := if remembered.Some? then remembered.value else |Now(h1).files[path]|;
        PollEnds(h1, s, path, i + 1, Some(size));
      } else {
        PollEnds(h1, s, path, i + 1, remembered);
      }
    }
  }

  lemma {:induction false} PollSince(c: Call, h0: History, h: History, s: Schedule, path: string, i: nat,
                                     remembered: Option<nat>)
    requires Since(c, h0, h) && i <= POLLS
    ensures Since(c, h0, PollSeen(h, s, path, i, remembered))
    decreases POLLS - i
  {
    if i < POLLS {
      SincePassed(c, h0, h, s, Poll(i));
      var h1 := Passed(h, s, Poll(i));
      if path in Now(h1).files {
        var size := if remembered.Some? then remembered.value else |Now(h1).files[path]|;
        PollSince(c, h0, h1, s, path, i + 1, Some(size));
      } else {
        PollSince(c, h0, h1, s, path, i + 1, remembered);
      }
    }
  }

  lemma MoveDumpEnds(h: History, path: string, target: string, character: string, s: Schedule)
    ensures Now(MoveDumpSeen(h, path, target, s)) == MoveDump(Now(h), path, target, character, s).world
  {
  }

  /** The paths between which the request moves the dump. */
  ghost predicate Moves(c: Call, path: string, target: string, character: string) {
    && c.action.Backup? && c.action.backup.guid > 0
    && path == TempDumpPath(c.action.backup.guid, c.action.backup.time)
    && target == StoredPath(Canonical(c.action.backup.account), BackupName(character, c.action.backup.stamp))
  }

  lemma MoveDumpSince(c: Call, h0: History, h: History, path: string, target: string, character: string, s: Schedule)
    requires Since(c, h0, h) && Moves(c, path, target, character)
    requires c.reply == MoveDump(Now(h), path, target, character, s).reply
    ensures var g := MoveDumpSeen(h, path, target, s);
            Since(c, h0, g) && Now(g) == MoveDump(Now(h), path, target, character, s).world
  {
    MoveDumpEnds(h, path, target, character, s);
    SincePassed(c, h0, h, s, Rename);
    var h1 := Passed(h, s, Rename);
    if s(Rename).ok && path in Now(h1).files {
      SinceThen(c, h0, h1, MoveFile(path, target));
    }
  }

  lemma FetchDumpSince(c: Call, h0: History, h: History, account: string, character: string, r: BackupRequest, s: Schedule)
    requires Since(c, h0, h) && r.guid > 0 && c.reply == FetchDump(Now(h), account, character, r, s).reply
    requires c.action == Backup(r) && account == Canonical(r.account)
    ensures var g := FetchDumpSeen(h, account, character, r, s);
            Since(c, h0, g) && Now(g) == FetchDump(Now(h), account, character, r, s).world
  {
    var path := TempDumpPath(r.guid, r.time);
    SincePassed(c, h0, h, s, SendCommand);
    var h1 := Passed(h, s, SendCommand);
    PollSince(c, h0, h1, s, path, 0, None);
    PollEnds(h1, s, path, 0, None);
    var h2 := PollSeen(h1, s, path, 0, None);
    if s(SendCommand).ok && PollFor(Now(h1), s, path, 0, None).found {
      MoveDumpSince(c, h0, h2, path, StoredPath(account, BackupName(character, r.stamp)), character, s);
    }
  }

  lemma SaveOwnedShape(h: History, account: string, id: int, r: BackupRequest, s: Schedule)
    requires r.guid > 0
    ensures var g, o := SaveOwnedSeen(h, account, id, r, s), SaveOwned(Now(h), account, id, r, s);
            var h1 := Passed(h, s, ConnectCharacters);
            var h2 := Passed(h1, s, ReadCharacter);
            || (g == h1 && o.world == Now(h1))
            || (g == h2 && o.world == Now(h2))
            || (&& r.guid in Now(h2).characters
                && g == FetchDumpSeen(h2, account, Now(h2).characters[r.guid].name, r, s)
                && o == FetchDump(Now(h2), account, Now(h2).characters[r.guid].name, r, s))
  {
  }

  lemma SaveOwnedSince(c: Call, h0: History, h: History, account: string, id: int, r: BackupRequest, s: Schedule)
    requires Since(c, h0, h) && r.guid > 0 && c.reply == SaveOwned(Now(h), account, id, r, s).reply
    requires c.action == Backup(r) && account == Canonical(r.account)
    ensures var g := SaveOwnedSeen(h, account, id, r, s);
            Since(c, h0, g) && Now(g) == SaveOwned(Now(h), account, id, r, s).world
  {
    SaveOwnedShape(h, account, id, r, s);
    SincePassed(c, h0, h, s, ConnectCharacters);
    var h1 := Passed(h, s, ConnectCharacters);
    SincePassed(c, h0, h1, s, ReadCharacter);
    var h2 := Passed(h1, s, ReadCharacter);
    if r.guid in Now(h2).characters
       && c.reply == FetchDump(Now(h2), account, Now(h2).characters[r.guid].name, r, s).reply {
      FetchDumpSince(c, h0, h2, account, Now(h2).characters[r.guid].name, r, s);
    }
  }

  lemma SaveCharacterShape(h: History, account: string, r: BackupRequest, s: Schedule)
    requires r.guid > 0
    ensures var g, o := SaveCharacterSeen(h, account, r, s), SaveCharacter(Now(h), account, r, s);
            var h1 := Passed(h, s, Connect);
            var h2 := Passed(h1, s, FindAccount);
            var id := Lookup(Now(h2).accounts, account);
            || (g == h1 && o.world == Now(h1))
            || (g == h2 && o.world == Now(h2))
            || (id.Some? && g == SaveOwnedSeen(h2, account, id.value, r, s) && o == SaveOwned(Now(h2), account, id.value, r, s))
  {
  }

  lemma SaveCharacterSince(c: Call, h0: History, h: History, account: string, r: BackupRequest, s: Schedule)
    requires Since(c, h0, h) && r.guid > 0 && c.reply == SaveCharacter(Now(h), account, r, s).reply
    requires c.action == Backup(r) && account == Canonical(r.account)
    ensures var g := SaveCharacterSeen(h, account, r, s);
            Since(c, h0, g) && Now(g) == SaveCharacter(Now(h), account, r, s).world
  {
    SaveCharacterShape(h, account, r, s);
    SincePassed(c, h0, h, s, Connect);
    var h1 := Passed(h, s, Connect);
    SincePassed(c, h0, h1, s, FindAccount);
    var h2 := Passed(h1, s, FindAccount);
    var id := Lookup(Now(h2).accounts, account);
    if id.Some? && c.reply == SaveOwned(Now(h2), account, id.value, r, s).reply {
      SaveOwnedSince(c, h0, h2, account, id.value, r, s);
    }
  }

  lemma CreateBackupShape(h: History, r: BackupRequest, s: Schedule)
    ensures var g, o := CreateBackupSeen(h, r, s), CreateBackup(Now(h), r, s);
            var h1 := Passed(h, s, ServerCheck);
            || (g == h1 && o.world == Now(h1))
            || (&& r.guid > 0 && g == SaveCharacterSeen(h1, Canonical(r.account), r, s)
                && o == SaveCharacter(Now(h1), Canonical(r.account), r, s))
  {
  }

  lemma CreateBackupSince(c: Call, h0: History, h: History, r: BackupRequest, s: Schedule)
    requires Since(c, h0, h) && c.action == Backup(r) && c.reply == CreateBackup(Now(h), r, s).reply
    ensures var g := CreateBackupSeen(h, r, s); Since(c, h0, g) && Now(g) == CreateBackup(Now(h), r, s).world
  {
    CreateBackupShape(h, r, s);
    SincePassed(c, h0, h, s, ServerCheck);
    var h1 := Passed(h, s, ServerCheck);
    if r.guid > 0 && c.reply == SaveCharacter(Now(h1), Canonical(r.account), r, s).reply {
      SaveCharacterSince(c, h0, h1, Canonical(r.account), r, s);
    }
  }

  lemma {:induction false} CleanupEnds(h: History, listing: seq<string>, s: Schedule)
    ensures Now(CleanupSeen(h, listing, s)) == Cleanup(Now(h), listing, s)
  {
    if listing != [] {
      CleanupEnds(h, listing[..|listing| - 1], s);
    }
  }

  lemma {:induction false} CleanupSince(c: Call, h0: History, h: History, listing: seq<string>, s: Schedule)
    requires Since(c, h0, h) && c.action.Restore? && forall p :: p in listing ==> IsTempLoad(p)
    ensures Since(c, h0, CleanupSeen(h, listing, s))
  {
    if listing != [] {
      var rest, path := listing[..|listing| - 1], listing[|listing| - 1];
      CleanupSince(c, h0, h, rest, s);
      var h1 := CleanupSeen(h, rest, s);
      SincePassed(c, h0, h1, s, Unlink(path));
      var h2 := Passed(h1, s, Unlink(path));
      SinceThen(c, h0, h2, DropFile(path));
    }
  }

  lemma SendLoadEnds(h: History, file: string, target: string, temp: string, s: Schedule)
    ensures Now(SendLoadSeen(h, temp, s)) == SendLoad(Now(h), file, target, temp, s).world
  {
  }

  lemma CopyDumpEnds(h: History, path: string, file: string, target: string, temp: string, s: Schedule)
    ensures Now(CopyDumpSeen(h, path, temp, s)) == CopyDump(Now(h), path, file, target, temp, s).world
  {
    SendLoadEnds(Then(Passed(h, s, Copy), CopyFile(path, temp)), file, target, temp, s);
  }

  lemma CopiedSince(c: Call, h0: History, h: History, path: string, temp: string)
    requires Since(c, h0, h) && c.action.Restore? && temp == TempLoadPath(c.action.restore.time)
    requires LooksAt(DumpRequest(c.action.restore.account, c.action.restore.filename), path) && path in Now(h).files
    ensures Since(c, h0, Then(h, CopyFile(path, temp)))
  {
    SinceThen(c, h0, h, CopyFile(path, temp));
  }

  lemma SendLoadSince(c: Call, h0: History, h: History, temp: string, s: Schedule)
    requires Since(c, h0, h) && c.action.Restore? && IsTempLoad(temp)
    ensures Since(c, h0, SendLoadSeen(h, temp, s))
  {
    SincePassed(c, h0, h, s, SendCommand);
    var h1 := Passed(h, s, SendCommand);
    SincePassed(c, h0, h1, s, UnlinkTemp);
    SinceThen(c, h0, Passed(h1, s, UnlinkTemp), DropFile(temp));
  }

  lemma CopyDumpSince(c: Call, h0: History, h: History, path: string, temp: string, s: Schedule)
    requires Since(c, h0, h) && c.action.Restore? && temp == TempLoadPath(c.action.restore.time)
    requires LooksAt(DumpRequest(c.action.restore.account, c.action.restore.filename), path)
    ensures Since(c, h0, CopyDumpSeen(h, path, temp, s))
  {
    SincePassed(c, h0, h, s, Copy);
    var h1 := Passed(h, s, Copy);
    if path in Now(h1).files {
      GeneratedPaths("", "", 0, c.action.restore.time);
      CopiedSince(c, h0, h1, path, temp);
      SendLoadSince(c, h0, Then(h1, CopyFile(path, temp)), temp, s);
    }
  }

  lemma LoadDumpSince(c: Call, h0: History, h: History, path: string, file: string, target: string, time: nat,
                      listing: seq<string>, s: Schedule)
    requires Since(c, h0, h) && c.action.Restore? && time == c.action.restore.time
    requires LooksAt(DumpRequest(c.action.restore.account, c.action.restore.filename), path)
    ensures var g := LoadDumpSeen(h, path, time, listing, s);
            Since(c, h0, g) && Now(g) == LoadDump(Now(h), path, file, target, time, listing, s).world
  {
    SincePassed(c, h0, h, s, Glob);
    var h1 := Passed(h, s, Glob);
    if IsListing(listing, Now(h1).files) {
      ListingMeans(listing, Now(h1).files, Now(h1).files);
      CleanupSince(c, h0, h1, listing, s);
    }
    CleanupEnds(h1, listing, s);
    var h2 := if s(Glob).ok && IsListing(listing, Now(h1).files) then CleanupSeen(h1, listing, s) else h1;
    CopyDumpSince(c, h0, h2, path, TempLoadPath(time), s);
    CopyDumpEnds(h2, path, file, target, TempLoadPath(time), s);
  }

  lemma RestoreBackupShape(h: History, r: RestoreRequest, s: Schedule)
    ensures var g, o := RestoreBackupSeen(h, r, s), RestoreBackup(Now(h), r, s);
            var h1, file := Passed(h, s, ServerCheck), SafeDumpName(r.filename);
            || (g == h1 && o.world == Now(h1))
            || (&& file.Some? && MatchesName(Canonical(r.account))
                && var path := StoredPath(Canonical(r.account), file.value);
                   && g == LoadDumpSeen(h1, path, r.time, r.listing, s)
                   && o == LoadDump(Now(h1), path, file.value, Canonical(r.target), r.time, r.listing, s))
  {
  }

  lemma RestoreBackupSince(c: Call, h0: History, h: History, r: RestoreRequest, s: Schedule)
    requires Since(c, h0, h) && c.action == Restore(r)
    ensures var g := RestoreBackupSeen(h, r, s); Since(c, h0, g) && Now(g) == RestoreBackup(Now(h), r, s).world
  {
    RestoreBackupShape(h, r, s);
    SincePassed(c, h0, h, s, ServerCheck);
    var file := SafeDumpName(r.filename);
    CanonicalNames(r.account);
    if file.Some? && MatchesName(Canonical(r.account)) {
      LoadDumpSince(c, h0, Passed(h, s, ServerCheck), StoredPath(Canonical(r.account), file.value), file.value,
                    Canonical(r.target), r.time, r.listing, s);
    }
  }

  // ---- whole requests ----

  function CallOf(sha1: Hash, action: Action, o: Outcome): Call {
    Call(sha1, action, o.reply)
  }

  lemma CreateSince(sha1: Hash, h: History, r: CreateRequest, s: Schedule)
    ensures var g, o := PerformSeen(sha1, h, Create(r), s), Perform(sha1, Now(h), Create(r), s);
            Now(g) == o.world && Since(CallOf(sha1, Create(r), o), h, g)
  {
    CreateAccountSince(CallOf(sha1, Create(r), CreateAccount(sha1, Now(h), r, s)), h, h, r, s);
  }

  lemma DeleteSince(sha1: Hash, h: History, r: DeleteRequest, s: Schedule)
    ensures var g, o := PerformSeen(sha1, h, Delete(r), s), Perform(sha1, Now(h), Delete(r), s);
            Now(g) == o.world && Steady(CallOf(sha1, Delete(r), o), h, g, o.reply.Deleted?)
  {
    DeleteAccountSince(CallOf(sha1, Delete(r), DeleteAccount(Now(h), r, s)), h, h, r, s);
  }

  lemma PushSince(sha1: Hash, h: History, r: PushRequest, s: Schedule)
    ensures var g, o := PerformSeen(sha1, h, Push(r), s), Perform(sha1, Now(h), Push(r), s);
            Now(g) == o.world && Since(CallOf(sha1, Push(r), o), h, g)
  {
    PushLevelSince(CallOf(sha1, Push(r), PushLevel(Now(h), r, s)), h, h, r, s);
  }

  lemma UploadSince(sha1: Hash, h: History, r: UploadRequest, s: Schedule)
    ensures var g, o := PerformSeen(sha1, h, UploadFile(r), s), Perform(sha1, Now(h), UploadFile(r), s);
            Now(g) == o.world && Since(CallOf(sha1, UploadFile(r), o), h, g)
  {
    UploadDumpSince(CallOf(sha1, UploadFile(r), UploadDump(Now(h), r, s)), h, h, r, s);
  }

  lemma RemovalSince(sha1: Hash, h: History, r: DumpRequest, s: Schedule)
    ensures var g, o := PerformSeen(sha1, h, DeleteFile(r), s), Perform(sha1, Now(h), DeleteFile(r), s);
            Now(g) == o.world && Since(CallOf(sha1, DeleteFile(r), o), h, g)
  {
    var o := Perform(sha1, Now(h), DeleteFile(r), s);
    var c := CallOf(sha1, DeleteFile(r), o);
    assert o == DeleteDump(Now(h), r, s);
    assert Since(c, h, h);
    DeleteDumpSince(c, h, h, r, s);
    assert PerformSeen(sha1, h, DeleteFile(r), s) == DeleteDumpSeen(h, r, s);
  }

  lemma BackupSince(sha1: Hash, h: History, r: BackupRequest, s: Schedule)
    ensures var g, o := PerformSeen(sha1, h, Backup(r), s), Perform(sha1, Now(h), Backup(r), s);
            Now(g) == o.world && Since(CallOf(sha1, Backup(r), o), h, g)
  {
    CreateBackupSince(CallOf(sha1, Backup(r), CreateBackup(Now(h), r, s)), h, h, r, s);
  }

  lemma RestoreSince(sha1: Hash, h: History, r: RestoreRequest, s: Schedule)
    ensures var g, o := PerformSeen(sha1, h, Restore(r), s), Perform(sha1, Now(h), Restore(r), s);
            Now(g) == o.world && Since(CallOf(sha1, Restore(r), o), h, g)
  {
    RestoreBackupSince(CallOf(sha1, Restore(r), RestoreBackup(Now(h), r, s)), h, h, r, s);
  }

  /** A request adds one change after the other to the history, each a step of the game server or a
      write it is permitted; the loss of an account comes last, and only if it is announced. */
  lemma PerformSince(sha1: Hash, h: History, action: Action, s: Schedule)
    ensures var g, o := PerformSeen(sha1, h, action, s), Perform(sha1, Now(h), action, s);
            Now(g) == o.world && Steady(CallOf(sha1, action, o), h, g, action.Delete? && o.reply.Deleted?)
  {
    match action
    case Create(r) => CreateSince(sha1, h, r, s);
    case Delete(r) => DeleteSince(sha1, h, r, s);
    case Push(r) => PushSince(sha1, h, r, s);
    case UploadFile(r) => UploadSince(sha1, h, r, s);
    case DownloadFile(_) =>
    case DeleteFile(r) => RemovalSince(sha1, h, r, s);
    case Backup(r) => BackupSince(sha1, h, r, s);
    case Restore(r) => RestoreSince(sha1, h, r, s);
    case Unknown =>
  }
}
