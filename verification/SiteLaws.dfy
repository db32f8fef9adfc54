/** Safety over whole runs of the page, from any world and from the empty one that is shipped. */
module SiteLaws {
  import opened AccountLaws
  import opened Accounts
  import opened BackupLaws
  import opened Backups
  import opened Hex
  import opened Names
  import opened Options
  import opened Site
  import opened Srp6
  import opened Text
  import opened World

  // ---- the database actions and the files ----

  lemma {:induction false} PassingGameOnly(w: World, s: Schedule, points: seq<Point>, n: nat)
    requires n <= |points|
    ensures GameOnly(w, Passing(w, s, points, n))
  {
    if n > 0 {
      PassingGameOnly(w, s, points, n - 1);
      ArriveGameOnly(w, s, points[n - 1], Passing(w, s, points, n - 1));
    }
  }

  lemma StoreAccountFrame(w: World, username: string, row: Row, id: int, s: Schedule)
    ensures var w' := StoreAccount(w, username, row, id, s).world;
            FilesKept(w.files, w'.files) && (CharactersOwned(w) ==> CharactersOwned(w'))
  {
    ArriveGameOnly(w, s, Connect, w);
    var w1 := Arrive(w, s, Connect);
    ArriveGameOnly(w, s, FindAccount, w1);
    var w2 := Arrive(w1, s, FindAccount);
    ArriveGameOnly(w, s, InsertAccount, w2);
    var w3 := Arrive(w2, s, InsertAccount);
    if s(Connect).ok && s(FindAccount).ok && s(InsertAccount).ok && !Taken(w2.accounts, username) && id !in w3.accounts {
      var w4 := w3.(accounts := w3.accounts[id := Account(username, row.verifier, row.salt)]);
      ArriveGameOnly(w4, s, InsertRealmRows, w4);
    }
  }

  /** None of the database actions touches a file; only a deletion can leave a character behind. */
  lemma DatabaseActionFrame(sha1: Hash, w: World, action: Action, s: Schedule)
    requires action.Create? || action.Delete? || action.Push?
    ensures var w' := Perform(sha1, w, action, s).world;
            && FilesKept(w.files, w'.files)
            && (CharactersOwned(w) && (action.Delete? ==> !MakesOrphan(w, action.delete, s)) ==> CharactersOwned(w'))
  {
    match action
    case Create(r) =>
      CreateAccountParts(sha1, w, r, s);
      var username, password := Canonical(r.username), Canonical(r.password);
      StoreAccountFrame(w, username, StoredRow(sha1, username, password, r.random), r.id, s);
    case Delete(r) =>
      var n := DeleteAccountCases(w, r, s);
      PassingGameOnly(w, s, DELETE_POINTS, n);
      PassingGameOnly(w, s, DELETE_POINTS, 8);
      if CharactersOwned(w) {
        DeleteAccountOrphans(w, r, s);
      }
    case Push(r) =>
      var n := PushLevelFrame(w, r, s);
      PassingGameOnly(w, s, PUSH_POINTS, n);
  }

  lemma PushKeepsRows(w: World, r: PushRequest, s: Schedule)
    ensures var w' := PushLevel(w, r, s).world;
            w'.accounts == w.accounts && w'.realms == w.realms && w'.realmRows == w.realmRows
  {
    var n := PushLevelFrame(w, r, s);
  }

  lemma FileActionFrame(sha1: Hash, w: World, action: Action, s: Schedule)
    requires !(action.Create? || action.Delete? || action.Push?)
    ensures SameDatabases(w, Perform(sha1, w, action, s).world)
  {
    match action
    case UploadFile(r) => UploadDatabases(w, r, s);
    case DeleteFile(r) => DeleteDumpDatabases(w, r, s);
    case Backup(r) => BackupDatabases(w, r, s);
    case _ => OtherActionFrame(sha1, w, action, s);
  }

  lemma OtherActionFrame(sha1: Hash, w: World, action: Action, s: Schedule)
    requires action.DownloadFile? || action.Restore? || action.Unknown?
    ensures SameDatabases(w, Perform(sha1, w, action, s).world)
  {
    if action.Restore? {
      RestoreDatabases(w, action.restore, s);
    }
  }

  // ---- invariants of the databases ----

  /** Three invariants, none of which needs another: realm rows go on referring to accounts, names go
      on being unique, and every account that was not there before with the same row has a canonical
      name and a well-formed row some admissible password fits. */
  ghost predicate RowsKept(sha1: Hash, w: World, w': World) {
    && w'.realms == w.realms
    && (RealmRowsRefer(w) ==> RealmRowsRefer(w'))
    && (UniqueNames(w) ==> UniqueNames(w'))
    && NewUsable(sha1, w, w')
  }

  lemma RowsKeptTrans(sha1: Hash, w: World, w1: World, w2: World)
    requires RowsKept(sha1, w, w1) && RowsKept(sha1, w1, w2)
    ensures RowsKept(sha1, w, w2)
  {
    forall id | id in w2.accounts
      ensures Usable(sha1, w2.accounts[id]) || (id in w.accounts && w.accounts[id] == w2.accounts[id])
    {
    }
  }

  lemma ServeKeepsRows(sha1: Hash, session: string, w: World, q: Request)
    ensures RowsKept(sha1, w, Serve(sha1, session, w, q).world)
  {
    match q.action
    case Create(r) => CreateAccountKeeps(sha1, w, r, q.schedule);
    case Delete(r) => DeleteAccountKeeps(sha1, w, r, q.schedule);
    case Push(r) => PushKeepsRows(w, r, q.schedule);
    case _ => FileActionFrame(sha1, w, q.action, q.schedule);
  }

  lemma {:induction false} RunKeepsRows(sha1: Hash, session: string, w: World, events: seq<Event>)
    ensures RowsKept(sha1, w, Run(sha1, session, w, events))
  {
    if events != [] {
      var before := Run(sha1, session, w, events[..|events| - 1]);
      RunKeepsRows(sha1, session, w, events[..|events| - 1]);
      var e := events[|events| - 1];
      if e.Post? {
        ServeKeepsRows(sha1, session, before, e.request);
        RowsKeptTrans(sha1, w, before, Serve(sha1, session, before, e.request).world);
      }
    }
  }

  /** In every run, from any world in which it holds: every realm row refers to an account. */
  lemma RunKeepsRealmRows(sha1: Hash, session: string, w: World, events: seq<Event>)
    requires RealmRowsRefer(w)
    ensures RealmRowsRefer(Run(sha1, session, w, events))
  {
    RunKeepsRows(sha1, session, w, events);
  }

  /** In every run, from any world in which it holds: no name belongs to two accounts. */
  lemma RunKeepsNames(sha1: Hash, session: string, w: World, events: seq<Event>)
    requires UniqueNames(w)
    ensures UniqueNames(Run(sha1, session, w, events))
  {
    RunKeepsRows(sha1, session, w, events);
  }

  /** In every run, from any world at all: whatever account was not there at the start is usable. */
  lemma RunMakesUsable(sha1: Hash, session: string, w: World, events: seq<Event>)
    ensures NewUsable(sha1, w, Run(sha1, session, w, events))
  {
    RunKeepsRows(sha1, session, w, events);
  }

  /** An account row changes or goes only by a successful deletion of its own, unprotected name. */
  ghost predicate Deletes(sha1: Hash, session: string, w: World, e: Event, username: string) {
    && e.Post? && e.request.action.Delete? && Serve(sha1, session, w, e.request).reply.Deleted?
    && Confirmed(e.request.action.delete) && Canonical(e.request.action.delete.username) == username
  }

  lemma ApplyKeepsAccount(sha1: Hash, session: string, w: World, e: Event, id: int)
    requires id in w.accounts && !Deletes(sha1, session, w, e, w.accounts[id].username)
    ensures var w' := Apply(sha1, session, w, e); id in w'.accounts && w'.accounts[id] == w.accounts[id]
  {
    if e.Post? {
      var q := e.request;
      match q.action
      case Create(r) => CreateAccountKeeps(sha1, w, r, q.schedule);
      case Delete(r) =>
        DeleteAccountKeeps(sha1, w, r, q.schedule);
        var n := DeleteAccountCases(w, r, q.schedule);
      case Push(r) => PushKeepsRows(w, r, q.schedule);
      case _ => FileActionFrame(sha1, w, q.action, q.schedule);
    }
  }

  /** In every run each account keeps its row unless some request deletes exactly that name. */
  lemma {:induction false} RunKeepsAccount(sha1: Hash, session: string, w: World, events: seq<Event>, id: int)
    requires id in w.accounts
    requires forall i :: 0 <= i < |events| ==>
               !Deletes(sha1, session, Run(sha1, session, w, events[..i]), events[i], w.accounts[id].username)
    ensures var w' := Run(sha1, session, w, events); id in w'.accounts && w'.accounts[id] == w.accounts[id]
  {
    if events != [] {
      var shorter := events[..|events| - 1];
      forall i | 0 <= i < |shorter|
        ensures !Deletes(sha1, session, Run(sha1, session, w, shorter[..i]), shorter[i], w.accounts[id].username)
      {
        assert shorter[..i] == events[..i];
      }
      RunKeepsAccount(sha1, session, w, shorter, id);
      ApplyKeepsAccount(sha1, session, Run(sha1, session, w, shorter), events[|events| - 1], id);
    }
  }

  /** So the system accounts, once present, stay in every run. */
  lemma SystemAccountsStay(sha1: Hash, session: string, w: World, events: seq<Event>, id: int)
    requires id in w.accounts && w.accounts[id].username in ["ADMIN", "AHBOT"]
    ensures var w' := Run(sha1, session, w, events); id in w'.accounts && w'.accounts[id] == w.accounts[id]
  {
    RunKeepsAccount(sha1, session, w, events, id);
  }

  /** A half-made account can never be completed: after any run in which its name is not deleted,
      every request to create it still fails and changes no row. */
  lemma RetryRefusedLater(sha1: Hash, session: string, w: World, r: CreateRequest, s: Schedule,
                          events: seq<Event>, r': CreateRequest, s': Schedule)
    requires Admissible(r) && ReachesRealmRows(w, Canonical(r.username), r.id, s) && !s(InsertRealmRows).ok
    requires var half := CreateAccount(sha1, w, r, s).world;
             forall i :: 0 <= i < |events| ==>
               !Deletes(sha1, session, Run(sha1, session, half, events[..i]), events[i], Canonical(r.username))
    requires Canonical(r'.username) == Canonical(r.username)
    ensures var later := Run(sha1, session, CreateAccount(sha1, w, r, s).world, events);
            var o := CreateAccount(sha1, later, r', s');
            o.reply.Failed? && o.world.accounts == later.accounts && o.world.realmRows == later.realmRows
  {
    HalfMade(sha1, w, r, s);
    var half := CreateAccount(sha1, w, r, s).world;
    RunKeepsAccount(sha1, session, half, events, r.id);
    var later := Run(sha1, session, half, events);
    assert r.id in later.accounts && later.accounts[r.id].username == Canonical(r.username);
    RefusedWhileTaken(sha1, later, r', s');
  }

  /** No request of the run deletes an account while a new character is made for it. */
  ghost predicate QuietDeletions(sha1: Hash, session: string, w: World, events: seq<Event>) {
    forall i :: 0 <= i < |events| ==> !Orphans(session, Run(sha1, session, w, events[..i]), events[i])
  }

  ghost predicate Orphans(session: string, w: World, e: Event) {
    && e.Post? && e.request.action.Delete? && e.request.token != "" && e.request.token == session
    && MakesOrphan(w, e.request.action.delete, e.request.schedule)
  }

  lemma ApplyKeepsOwners(sha1: Hash, session: string, w: World, e: Event)
    requires CharactersOwned(w)
    ensures CharactersOwned(Apply(sha1, session, w, e)) <==> !Orphans(session, w, e)
  {
    if e.Post? {
      var q := e.request;
      if q.action.Delete? {
        DeleteAccountOrphans(w, q.action.delete, q.schedule);
      } else if q.action.Create? || q.action.Push? {
        DatabaseActionFrame(sha1, w, q.action, q.schedule);
      } else {
        FileActionFrame(sha1, w, q.action, q.schedule);
      }
    }
  }

  lemma QuietPrefix(sha1: Hash, session: string, w: World, events: seq<Event>)
    requires events != []
    ensures var t := events[..|events| - 1];
            QuietDeletions(sha1, session, w, events) <==>
            QuietDeletions(sha1, session, w, t) && !Orphans(session, Run(sha1, session, w, t), events[|events| - 1])
  {
    var t := events[..|events| - 1];
    assert forall i :: 0 <= i < |t| ==> t[..i] == events[..i] && t[i] == events[i];
    assert events[..|t|] == t;
    if QuietDeletions(sha1, session, w, t) && !Orphans(session, Run(sha1, session, w, t), events[|events| - 1]) {
      forall i | 0 <= i < |events|
        ensures !Orphans(session, Run(sha1, session, w, events[..i]), events[i])
      {
        if i < |t| {
          assert !Orphans(session, Run(sha1, session, w, t[..i]), t[i]);
        }
      }
    }
  }

  /** Every character has its account at the start and after each event. */
  ghost predicate OwnedThroughout(sha1: Hash, session: string, w: World, events: seq<Event>) {
    forall n :: 0 <= n <= |events| ==> CharactersOwned(Run(sha1, session, w, events[..n]))
  }

  lemma OwnedPrefix(sha1: Hash, session: string, w: World, events: seq<Event>)
    requires events != [] && OwnedThroughout(sha1, session, w, events)
    ensures OwnedThroughout(sha1, session, w, events[..|events| - 1]) && CharactersOwned(Run(sha1, session, w, events))
  {
    var t := events[..|events| - 1];
    assert forall n :: 0 <= n <= |t| ==> t[..n] == events[..n];
    OwnedAtEnd(sha1, session, w, events);
  }

  lemma OwnedExtended(sha1: Hash, session: string, w: World, events: seq<Event>)
    requires events != [] && OwnedThroughout(sha1, session, w, events[..|events| - 1])
    requires CharactersOwned(Run(sha1, session, w, events))
    ensures OwnedThroughout(sha1, session, w, events)
  {
    var t := events[..|events| - 1];
    forall n | 0 <= n <= |events|
      ensures CharactersOwned(Run(sha1, session, w, events[..n]))
    {
      if n <= |t| {
        assert t[..n] == events[..n] && CharactersOwned(Run(sha1, session, w, t[..n]));
      } else {
        assert events[..n] == events;
      }
    }
  }

  lemma OwnedAtEnd(sha1: Hash, session: string, w: World, events: seq<Event>)
    requires OwnedThroughout(sha1, session, w, events)
    ensures CharactersOwned(Run(sha1, session, w, events))
  {
    assert events[..|events|] == events;
  }

  /** That is so exactly in the runs with quiet deletions. */
  lemma {:induction false} RunKeepsOwners(sha1: Hash, session: string, w: World, events: seq<Event>)
    requires CharactersOwned(w)
    ensures QuietDeletions(sha1, session, w, events) <==> OwnedThroughout(sha1, session, w, events)
  {
    if events == [] {
      assert events[..0] == [];
    } else {
      var t := events[..|events| - 1];
      RunKeepsOwners(sha1, session, w, t);
      QuietPrefix(sha1, session, w, events);
      if OwnedThroughout(sha1, session, w, t) {
        OwnedAtEnd(sha1, session, w, t);
        ApplyKeepsOwners(sha1, session, Run(sha1, session, w, t), events[|events| - 1]);
      }
      if OwnedThroughout(sha1, session, w, events) {
        OwnedPrefix(sha1, session, w, events);
      } else if OwnedThroughout(sha1, session, w, t) && CharactersOwned(Run(sha1, session, w, events)) {
        OwnedExtended(sha1, session, w, events);
      }
    }
  }

  /** The databases as shipped: realms, but no accounts and no characters. */
  ghost predicate Shipped(w: World) {
    w.accounts == map[] && w.realmRows == map[] && w.characters == map[]
  }

  lemma ShippedRun(sha1: Hash, session: string, w: World, events: seq<Event>)
    requires Shipped(w)
    ensures var w' := Run(sha1, session, w, events); RealmRowsRefer(w') && UniqueNames(w') && AllUsable(sha1, w')
    ensures QuietDeletions(sha1, session, w, events) ==> CharactersOwned(Run(sha1, session, w, events))
  {
    RunKeepsRows(sha1, session, w, events);
    RunKeepsOwners(sha1, session, w, events);
    if QuietDeletions(sha1, session, w, events) {
      OwnedAtEnd(sha1, session, w, events);
    }
  }

  /** Every account that a run from the shipped databases leaves can be used: for some admissible
      password, client and server reach the same premaster value from the stored columns. */
  lemma ShippedRunUsable(sha1: Hash, session: string, w: World, events: seq<Event>, id: int) returns (password: string)
    requires Shipped(w) && id in Run(sha1, session, w, events).accounts
    ensures ValidName(password)
    ensures var account := Run(sha1, session, w, events).accounts[id];
            var v, x := ParseHex(account.verifier), RecomputedExponent(sha1, account.username, password, account.salt);
            && ValidName(account.username) && v.Some? && x.Some?
            && forall a: nat, b: nat, u: nat, k: nat :: PremasterAgrees(x.value, v.value, a, b, u, k)
  {
    ShippedRun(sha1, session, w, events);
    var account := Run(sha1, session, w, events).accounts[id];
    assert Usable(sha1, account);
    var row := Row(account.verifier, account.salt);
    password :| ValidName(password) && Authenticates(sha1, account.username, password, row);
    forall a: nat, b: nat, u: nat, k: nat
      ensures PremasterAgrees(RecomputedExponent(sha1, account.username, password, account.salt).value,
                              ParseHex(account.verifier).value, a, b, u, k)
    {
      PremasterAgreement(sha1, account.username, password, row, a, b, u, k);
    }
  }

  /** An account that a request has stored, completely or not, can be used with the posted password after
      every run that does not delete its name: client and server reach the same premaster value. */
  lemma CreatedStaysUsable(sha1: Hash, session: string, w: World, r: CreateRequest, s: Schedule, events: seq<Event>)
    requires Admissible(r) && ReachesRealmRows(w, Canonical(r.username), r.id, s)
    requires var stored := CreateAccount(sha1, w, r, s).world;
             forall i :: 0 <= i < |events| ==>
               !Deletes(sha1, session, Run(sha1, session, stored, events[..i]), events[i], Canonical(r.username))
    ensures var later := Run(sha1, session, CreateAccount(sha1, w, r, s).world, events);
            var username, password := Canonical(r.username), Canonical(r.password);
            && r.id in later.accounts && later.accounts[r.id].username == username
            && var v, x := ParseHex(later.accounts[r.id].verifier),
                           RecomputedExponent(sha1, username, password, later.accounts[r.id].salt);
               && v.Some? && x.Some?
               && forall a: nat, b: nat, u: nat, k: nat :: PremasterAgrees(x.value, v.value, a, b, u, k)
  {
    var username, password := Canonical(r.username), Canonical(r.password);
    var row := StoredRow(sha1, username, password, r.random);
    StoredAccount(sha1, w, r, s);
    RunKeepsAccount(sha1, session, CreateAccount(sha1, w, r, s).world, events, r.id);
    RowRoundTrip(sha1, username, password, r.random);
    forall a: nat, b: nat, u: nat, k: nat
      ensures PremasterAgrees(RecomputedExponent(sha1, username, password, row.salt).value,
                              ParseHex(row.verifier).value, a, b, u, k)
    {
      PremasterAgreement(sha1, username, password, row, a, b, u, k);
    }
  }

  lemma StoredAccount(sha1: Hash, w: World, r: CreateRequest, s: Schedule)
    requires Admissible(r) && ReachesRealmRows(w, Canonical(r.username), r.id, s)
    ensures var row := StoredRow(sha1, Canonical(r.username), Canonical(r.password), r.random);
            var w' := CreateAccount(sha1, w, r, s).world;
            r.id in w'.accounts && w'.accounts[r.id] == Account(Canonical(r.username), row.verifier, row.salt)
  {
    var username := Canonical(r.username);
    CreateAccountParts(sha1, w, r, s);
    StoreAccountAdds(w, username, StoredRow(sha1, username, Canonical(r.password), r.random), r.id, s);
  }

  // ---- the store ----

  /** The request, answered so, is a deletion of the backup at the path, or a new backup that goes there. */
  ghost predicate Hits(action: Action, reply: Reply, path: string) {
    match action
    case DeleteFile(r) =>
      reply.DumpDeleted? && Addresses(r, Canonical(r.account), reply.file)
      && path == StoredPath(Canonical(r.account), reply.file)
    case Backup(r) =>
      reply.BackedUp? && path == StoredPath(Canonical(r.account), BackupName(reply.character, r.stamp))
    case _ => false
  }

  ghost predicate Touches(sha1: Hash, session: string, w: World, e: Event, path: string) {
    e.Post? && Hits(e.request.action, Serve(sha1, session, w, e.request).reply, path)
  }

  /** What one request may do to the store: add an upload at a new path, delete the dump addressed,
      or put a backup at its path; nothing else, and nothing when it fails. */
  ghost predicate StoreChange(before: Files, after: Files, action: Action, reply: Reply) {
    if action.UploadFile? && reply.Uploaded? then
      var path := StoredPath(Canonical(action.upload.account), reply.file);
      path !in before && StoreKeptBut(before, after, path)
    else if action.DeleteFile? && reply.DumpDeleted? then
      Addresses(action.unlink, Canonical(action.unlink.account), reply.file)
      && StoreKeptBut(before, after, StoredPath(Canonical(action.unlink.account), reply.file))
    else if action.Backup? && reply.BackedUp? then
      var path := StoredPath(Canonical(action.backup.account), BackupName(reply.character, action.backup.stamp));
      StoreKeptBut(before, after, path)
    else StoreKept(before, after)
  }

  lemma DatabaseActionStore(sha1: Hash, w: World, action: Action, s: Schedule)
    requires action.Create? || action.Delete? || action.Push?
    ensures StoreKept(w.files, Perform(sha1, w, action, s).world.files)
  {
    DatabaseActionFrame(sha1, w, action, s);
    KeptMeans(w.files, Perform(sha1, w, action, s).world.files);
  }

  lemma PerformStore(sha1: Hash, w: World, action: Action, s: Schedule)
    ensures var o := Perform(sha1, w, action, s); StoreChange(w.files, o.world.files, action, o.reply)
  {
    if action.Create? || action.Delete? || action.Push? {
      DatabaseActionStore(sha1, w, action, s);
    } else if action.UploadFile? || action.DeleteFile? {
      StoreActionStore(sha1, w, action, s);
    } else {
      OtherActionStore(sha1, w, action, s);
    }
  }

  lemma StoreActionStore(sha1: Hash, w: World, action: Action, s: Schedule)
    requires action.UploadFile? || action.DeleteFile?
    ensures var o := Perform(sha1, w, action, s); StoreChange(w.files, o.world.files, action, o.reply)
  {
    match action
    case UploadFile(r) => UploadDumpStores(w, r, s);
    case DeleteFile(r) => DeleteDumpFrame(w, r, s);
  }

  lemma OtherActionStore(sha1: Hash, w: World, action: Action, s: Schedule)
    requires action.DownloadFile? || action.Backup? || action.Restore? || action.Unknown?
    ensures var o := Perform(sha1, w, action, s); StoreChange(w.files, o.world.files, action, o.reply)
  {
    match action
    case Backup(r) => CreateBackupFrame(w, r, s);
    case Restore(r) => RestoreBackupFrame(w, r, s);
    case _ =>
  }

  lemma ApplyKeepsBackup(sha1: Hash, session: string, w: World, e: Event, path: string)
    requires InStore(path) && path in w.files && !Touches(sha1, session, w, e, path)
    ensures var w' := Apply(sha1, session, w, e); path in w'.files && w'.files[path] == w.files[path]
  {
    match e
    case Game(step) =>
      PathsApart(path);
      PlayAllKeepsFiles(w, [step]);
      OneStep(w, step);
    case Post(q) => PerformStore(sha1, w, q.action, q.schedule);
  }

  ghost predicate Untouched(sha1: Hash, session: string, w: World, events: seq<Event>, path: string) {
    forall i :: 0 <= i < |events| ==> !Touches(sha1, session, Run(sha1, session, w, events[..i]), events[i], path)
  }

  /** Store frame: in every run a backup keeps its contents unless one of those two events hits its
      own path; no upload, restore or database action ever does. */
  lemma {:induction false} RunKeepsBackup(sha1: Hash, session: string, w: World, events: seq<Event>, path: string)
    requires InStore(path) && path in w.files
    requires Untouched(sha1, session, w, events, path)
    ensures var w' := Run(sha1, session, w, events); path in w'.files && w'.files[path] == w.files[path]
  {
    if events != [] {
      var shorter := events[..|events| - 1];
      forall i | 0 <= i < |shorter|
        ensures !Touches(sha1, session, Run(sha1, session, w, shorter[..i]), shorter[i], path)
      {
        assert shorter[..i] == events[..i];
      }
      RunKeepsBackup(sha1, session, w, shorter, path);
      ApplyKeepsBackup(sha1, session, Run(sha1, session, w, shorter), events[|events| - 1], path);
    }
  }

  /** For backups of validated accounts, hitting the path means naming the very account and file; a new
      backup hits only that of the same character in the same minute. */
  lemma TouchesItsOwn(sha1: Hash, session: string, w: World, e: Event, account: string, file: string)
    requires ValidName(account) && Touches(sha1, session, w, e, StoredPath(account, file))
    ensures e.request.action.DeleteFile? ==> Addresses(e.request.action.unlink, account, file)
    ensures e.request.action.Backup? ==>
              && Canonical(e.request.action.backup.account) == account
              && file == BackupName(Serve(sha1, session, w, e.request).reply.character, e.request.action.backup.stamp)
    ensures e.request.action.Backup? && IsStamp(e.request.action.backup.stamp) ==>
              forall character, stamp :: IsStamp(stamp) && file == BackupName(character, stamp) ==>
                && character == Serve(sha1, session, w, e.request).reply.character
                && stamp == e.request.action.backup.stamp
  {
    var q := e.request;
    var o := Serve(sha1, session, w, q);
    if q.action.DeleteFile? {
      DeleteDumpFrame(w, q.action.unlink, q.schedule);
      StoredPathInjective(account, file, Canonical(q.action.unlink.account), o.reply.file);
    } else {
      var r := q.action.backup;
      CreateBackupFrame(w, r, q.schedule);
      StoredPathInjective(account, file, Canonical(r.account), BackupName(o.reply.character, r.stamp));
      forall character, stamp | IsStamp(r.stamp) && IsStamp(stamp) && file == BackupName(character, stamp)
        ensures character == o.reply.character && stamp == r.stamp
      {
        BackupNameInjective(character, stamp, o.reply.character, r.stamp);
      }
    }
  }

  /** Every file in the store lies where some request for a dump looks. */
  ghost predicate AllAddressable(files: Files) {
    forall path :: path in files && InStore(path) ==> HasAddress(path)
  }

  /** A new backup is of a character with at most 32 safe characters. */
  ghost predicate PlainBackup(sha1: Hash, session: string, w: World, e: Event) {
    e.Post? && e.request.action.Backup? && Serve(sha1, session, w, e.request).reply.BackedUp? ==>
      && AllSafe(Serve(sha1, session, w, e.request).reply.character)
      && |Serve(sha1, session, w, e.request).reply.character| <= 32
  }

  /** The clock writes its minutes as dates. */
  ghost predicate RealStamp(e: Event) {
    e.Post? && e.request.action.Backup? ==> IsStamp(e.request.action.backup.stamp)
  }

  /** Uploads and deletions are at paths with an address; backups exactly if they are plain. */
  lemma UploadAddressed(w: World, r: UploadRequest, s: Schedule)
    ensures var o := UploadDump(w, r, s); o.reply.Uploaded? ==> HasAddress(StoredPath(Canonical(r.account), o.reply.file))
  {
    UploadDumpStores(w, r, s);
    if UploadDump(w, r, s).reply.Uploaded? {
      AddressExact(Canonical(r.account), UploadDump(w, r, s).reply.file);
    }
  }

  lemma DeletionAddressed(w: World, r: DumpRequest, s: Schedule)
    ensures var o := DeleteDump(w, r, s);
            o.reply.DumpDeleted? ==> HasAddress(StoredPath(Canonical(r.account), o.reply.file))
  {
    DeleteDumpFrame(w, r, s);
    if DeleteDump(w, r, s).reply.DumpDeleted? {
      assert LooksAt(r, StoredPath(Canonical(r.account), DeleteDump(w, r, s).reply.file));
    }
  }

  lemma BackupAddressed(w: World, r: BackupRequest, s: Schedule)
    requires IsStamp(r.stamp) && CreateBackup(w, r, s).reply.BackedUp?
    ensures var o := CreateBackup(w, r, s);
            HasAddress(StoredPath(Canonical(r.account), BackupName(o.reply.character, r.stamp))) <==>
            AllSafe(o.reply.character) && |o.reply.character| <= 32
  {
    CreateBackupFrame(w, r, s);
    var name := BackupName(CreateBackup(w, r, s).reply.character, r.stamp);
    BackupAddressable(CreateBackup(w, r, s).reply.character, r.stamp);
    SafeDumpNameFixed(name);
    AddressExact(Canonical(r.account), name);
  }

  lemma OnePathAddressed(before: Files, after: Files, path: string)
    requires AllAddressable(before) && StoreKeptBut(before, after, path) && HasAddress(path)
    ensures AllAddressable(after)
  {
  }

  lemma ServeKeepsAddresses(sha1: Hash, w: World, action: Action, s: Schedule)
    requires AllAddressable(w.files)
    requires action.Backup? && CreateBackup(w, action.backup, s).reply.BackedUp? ==>
               HasAddress(StoredPath(Canonical(action.backup.account),
                                     BackupName(CreateBackup(w, action.backup, s).reply.character, action.backup.stamp)))
    ensures AllAddressable(Perform(sha1, w, action, s).world.files)
  {
    PerformStore(sha1, w, action, s);
    var o := Perform(sha1, w, action, s);
    if action.UploadFile? && o.reply.Uploaded? {
      UploadAddressed(w, action.upload, s);
      OnePathAddressed(w.files, o.world.files, StoredPath(Canonical(action.upload.account), o.reply.file));
    } else if action.DeleteFile? && o.reply.DumpDeleted? {
      DeletionAddressed(w, action.unlink, s);
      OnePathAddressed(w.files, o.world.files, StoredPath(Canonical(action.unlink.account), o.reply.file));
    } else if action.Backup? && o.reply.BackedUp? {
      OnePathAddressed(w.files, o.world.files,
                       StoredPath(Canonical(action.backup.account), BackupName(o.reply.character, action.backup.stamp)));
    }
  }

  lemma ServedOrNot(sha1: Hash, session: string, w: World, q: Request)
    ensures var o := Serve(sha1, session, w, q);
            o == Outcome(w, Failed(RequestExpired)) || o == Perform(sha1, w, q.action, q.schedule)
  {
  }

  lemma PlainBackupAddressed(sha1: Hash, session: string, w: World, q: Request)
    requires PlainBackup(sha1, session, w, Post(q)) && RealStamp(Post(q))
    requires Serve(sha1, session, w, q) == Perform(sha1, w, q.action, q.schedule)
    ensures q.action.Backup? && CreateBackup(w, q.action.backup, q.schedule).reply.BackedUp? ==>
              var r, character := q.action.backup, CreateBackup(w, q.action.backup, q.schedule).reply.character;
              HasAddress(StoredPath(Canonical(r.account), BackupName(character, r.stamp)))
  {
    if q.action.Backup? && CreateBackup(w, q.action.backup, q.schedule).reply.BackedUp? {
      BackupAddressed(w, q.action.backup, q.schedule);
    }
  }

  lemma GameKeepsAddresses(w: World, step: GameStep)
    requires AllAddressable(w.files)
    ensures AllAddressable(Play(w, step).files)
  {
    PlayAllKeepsFiles(w, [step]);
    OneStep(w, step);
    KeptMeans(w.files, Play(w, step).files);
  }

  lemma ApplyKeepsAddresses(sha1: Hash, session: string, w: World, e: Event)
    requires AllAddressable(w.files) && PlainBackup(sha1, session, w, e) && RealStamp(e)
    ensures AllAddressable(Apply(sha1, session, w, e).files)
  {
    match e
    case Game(step) => GameKeepsAddresses(w, step);
    case Post(q) =>
      ServedOrNot(sha1, session, w, q);
      if Serve(sha1, session, w, q) == Perform(sha1, w, q.action, q.schedule) {
        PlainBackupAddressed(sha1, session, w, q);
        ServeKeepsAddresses(sha1, w, q.action, q.schedule);
      }
  }

  /** A file without an address is never removed: nothing can ask for that. */
  lemma ApplyKeepsUnaddressed(sha1: Hash, session: string, w: World, e: Event, path: string)
    requires InStore(path) && path in w.files && !HasAddress(path)
    ensures path in Apply(sha1, session, w, e).files
  {
    if !Touches(sha1, session, w, e, path) {
      ApplyKeepsBackup(sha1, session, w, e, path);
    } else if e.request.action.DeleteFile? {
      DeletionAddressed(w, e.request.action.unlink, e.request.schedule);
    } else {
      CreateBackupFrame(w, e.request.action.backup, e.request.schedule);
    }
  }

  lemma BackupLeavesUnaddressed(sha1: Hash, session: string, w: World, e: Event)
    requires RealStamp(e) && !PlainBackup(sha1, session, w, e)
    ensures !AllAddressable(Apply(sha1, session, w, e).files)
  {
    var r, s := e.request.action.backup, e.request.schedule;
    CreateBackupFrame(w, r, s);
    BackupAddressed(w, r, s);
    var name := BackupName(CreateBackup(w, r, s).reply.character, r.stamp);
    GeneratedPaths(Canonical(r.account), name, 0, 0);
    assert StoredPath(Canonical(r.account), name) in Apply(sha1, session, w, e).files;
  }

  ghost predicate AllPlainBackups(sha1: Hash, session: string, w: World, events: seq<Event>) {
    forall i :: 0 <= i < |events| ==> PlainBackup(sha1, session, Run(sha1, session, w, events[..i]), events[i])
  }

  lemma PlainPrefix(sha1: Hash, session: string, w: World, events: seq<Event>)
    requires events != []
    ensures var t := events[..|events| - 1];
            AllPlainBackups(sha1, session, w, events) <==>
            AllPlainBackups(sha1, session, w, t) && PlainBackup(sha1, session, Run(sha1, session, w, t), events[|events| - 1])
  {
    var t := events[..|events| - 1];
    assert forall i :: 0 <= i < |t| ==> t[..i] == events[..i] && t[i] == events[i];
    if AllPlainBackups(sha1, session, w, t) && PlainBackup(sha1, session, Run(sha1, session, w, t), events[|events| - 1]) {
      forall i | 0 <= i < |events|
        ensures PlainBackup(sha1, session, Run(sha1, session, w, events[..i]), events[i])
      {
        if i < |t| {
          assert PlainBackup(sha1, session, Run(sha1, session, w, t[..i]), t[i]);
        }
      }
    }
  }

  lemma ApplyAddressesExact(sha1: Hash, session: string, w: World, e: Event)
    requires RealStamp(e)
    ensures AllAddressable(Apply(sha1, session, w, e).files) ==> PlainBackup(sha1, session, w, e) && AllAddressable(w.files)
    ensures PlainBackup(sha1, session, w, e) && AllAddressable(w.files) ==> AllAddressable(Apply(sha1, session, w, e).files)
  {
    if !PlainBackup(sha1, session, w, e) {
      BackupLeavesUnaddressed(sha1, session, w, e);
    } else if AllAddressable(w.files) {
      ApplyKeepsAddresses(sha1, session, w, e);
    } else {
      var path :| path in w.files && InStore(path) && !HasAddress(path);
      ApplyKeepsUnaddressed(sha1, session, w, e, path);
    }
  }

  /** Every file in the store keeps an address exactly in the runs in which every new backup is of a
      character with at most 32 safe characters. */
  lemma {:induction false} RunKeepsAddresses(sha1: Hash, session: string, w: World, events: seq<Event>)
    requires AllAddressable(w.files) && forall i :: 0 <= i < |events| ==> RealStamp(events[i])
    ensures AllAddressable(Run(sha1, session, w, events).files) <==> AllPlainBackups(sha1, session, w, events)
  {
    if events != [] {
      var t := events[..|events| - 1];
      RunKeepsAddresses(sha1, session, w, t);
      PlainPrefix(sha1, session, w, events);
      ApplyAddressesExact(sha1, session, Run(sha1, session, w, t), events[|events| - 1]);
    }
  }

  /** Some request returns the file. */
  ghost predicate Fetched(w: World, path: string) {
    path in w.files && exists q: DumpRequest :: LooksAt(q, path) && DownloadDump(w, q) == Outcome(w, Download(w.files[path]))
  }

  lemma FetchedExact(w: World, path: string)
    requires path in w.files
    ensures Fetched(w, path) <==> HasAddress(path)
  {
    if q: DumpRequest :| LooksAt(q, path) {
      DownloadExact(w, q, path);
    }
  }

  /** So exactly after those runs each file in the store is returned by a request. */
  lemma EveryBackupFetched(sha1: Hash, session: string, w: World, events: seq<Event>)
    requires AllAddressable(w.files) && forall i :: 0 <= i < |events| ==> RealStamp(events[i])
    ensures var w' := Run(sha1, session, w, events);
            AllPlainBackups(sha1, session, w, events) <==> forall path :: path in w'.files && InStore(path) ==> Fetched(w', path)
  {
    RunKeepsAddresses(sha1, session, w, events);
    EveryFetched(Run(sha1, session, w, events));
  }

  lemma EveryFetched(w: World)
    ensures AllAddressable(w.files) <==> forall path :: path in w.files && InStore(path) ==> Fetched(w, path)
  {
    forall path | path in w.files
      ensures Fetched(w, path) <==> HasAddress(path)
    {
      FetchedExact(w, path);
    }
  }

  // ---- the server's directory ----

  ghost predicate AtMostOne(s: set<string>) {
    forall p, q :: p in s && q in s ==> p == q
  }

  /** Listing the load files succeeds, and so does deleting them. */
  ghost predicate Deletable(files: Files, r: RestoreRequest, s: Schedule) {
    s(Glob).ok && IsListing(r.listing, files) && s(UnlinkTemp).ok && forall p :: s(Unlink(p)).ok
  }

  /** Only restore_backup changes which load files there are. */
  lemma PerformLoads(sha1: Hash, w: World, action: Action, s: Schedule)
    requires !action.Restore?
    ensures TempLoads(Perform(sha1, w, action, s).world.files) == TempLoads(w.files)
  {
    match action
    case UploadFile(r) => UploadDumpStores(w, r, s);
    case DownloadFile(r) =>
    case DeleteFile(r) => DeleteDumpFrame(w, r, s);
    case Backup(r) => CreateBackupFrame(w, r, s);
    case Unknown =>
    case _ =>
      DatabaseActionFrame(sha1, w, action, s);
      KeptMeans(w.files, Perform(sha1, w, action, s).world.files);
  }

  /** If files can be deleted, restore_backup never leaves two load files, and none at all if the
      command cannot be sent. */
  lemma RestoreLeavesOne(w: World, r: RestoreRequest, s: Schedule)
    requires Deletable(w.files, r, s) && AtMostOne(TempLoads(w.files))
    ensures AtMostOne(TempLoads(RestoreBackup(w, r, s).world.files))
    ensures Restorable(w, r, s) && s(Copy).ok && !s(SendCommand).ok ==> TempLoads(RestoreBackup(w, r, s).world.files) == {}
  {
    RestoreBackupFrame(w, r, s);
    assert Survivors(w, r.listing, s) == {};
  }

  /** Listing and deleting the load files succeeds, if the event is a restore. */
  ghost predicate DeletableAt(w: World, e: Event) {
    e.Post? && e.request.action.Restore? ==> Deletable(w.files, e.request.action.restore, e.request.schedule)
  }

  ghost predicate DeletableThroughout(sha1: Hash, session: string, w: World, events: seq<Event>) {
    forall i :: 0 <= i < |events| ==> DeletableAt(Run(sha1, session, w, events[..i]), events[i])
  }

  lemma ApplyKeepsOneLoad(sha1: Hash, session: string, w: World, e: Event)
    requires DeletableAt(w, e) && AtMostOne(TempLoads(w.files))
    ensures AtMostOne(TempLoads(Apply(sha1, session, w, e).files))
  {
    match e
    case Game(step) =>
      PlayAllKeepsFiles(w, [step]);
      OneStep(w, step);
      KeptMeans(w.files, Apply(sha1, session, w, e).files);
    case Post(q) =>
      if q.action.Restore? {
        RestoreLeavesOne(w, q.action.restore, q.schedule);
      } else {
        PerformLoads(sha1, w, q.action, q.schedule);
      }
  }

  /** If files can be deleted, at most one `temp_load_*.pdump` exists after every prefix of a run. */
  lemma {:induction false} RunKeepsOneLoad(sha1: Hash, session: string, w: World, events: seq<Event>)
    requires AtMostOne(TempLoads(w.files))
    requires DeletableThroughout(sha1, session, w, events)
    ensures AtMostOne(TempLoads(Run(sha1, session, w, events).files))
  {
    if events != [] {
      var shorter := events[..|events| - 1];
      assert forall i :: 0 <= i < |shorter| ==> shorter[..i] == events[..i];
      RunKeepsOneLoad(sha1, session, w, shorter);
      ApplyKeepsOneLoad(sha1, session, Run(sha1, session, w, shorter), events[|events| - 1]);
    }
  }
}
