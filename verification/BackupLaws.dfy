/** What the backup actions guarantee about the store and the server's directory, for every
    schedule of failures and game-server steps. */
module BackupLaws {
  import opened AccountLaws
  import opened Accounts
  import opened Backups
  import opened Names
  import opened Options
  import opened Text
  import opened World

  type Files = map<string, string>

  /** The same backups with the same contents. */
  ghost predicate StoreKept(before: Files, after: Files) {
    forall p :: InStore(p) ==> (p in after <==> p in before) && (p in before ==> after[p] == before[p])
  }

  /** The same, except possibly at one path. */
  ghost predicate StoreKeptBut(before: Files, after: Files, path: string) {
    forall p :: InStore(p) && p != path ==> (p in after <==> p in before) && (p in before ==> after[p] == before[p])
  }

  /** The files `temp_load_*.pdump` in the server's directory. */
  function TempLoads(files: Files): set<string> {
    set p | p in files && IsTempLoad(p)
  }

  function TempDumps(files: Files): set<string> {
    set p | p in files && IsTempDump(p)
  }

  lemma KeptMeans(before: Files, after: Files)
    requires FilesKept(before, after)
    ensures StoreKept(before, after) && TempLoads(after) == TempLoads(before) && TempDumps(before) <= TempDumps(after)
  {
    forall p: string
      ensures InStore(p) || IsTempLoad(p) ==> !IsTempDump(p)
    {
      PathsApart(p);
    }
  }

  /** The game server never touches a backup or a file being loaded. */
  lemma ArriveKeeps(w: World, s: Schedule, p: Point)
    ensures FilesKept(w.files, Arrive(w, s, p).files)
    ensures StoreKept(w.files, Arrive(w, s, p).files)
    ensures TempLoads(Arrive(w, s, p).files) == TempLoads(w.files)
    ensures TempDumps(w.files) <= TempDumps(Arrive(w, s, p).files)
  {
    PlayAllKeepsFiles(w, s(p).steps);
    KeptMeans(w.files, Arrive(w, s, p).files);
  }

  /** Files and databases are as the game server alone could leave them. */
  ghost predicate GameOnly(w: World, w': World) {
    FilesKept(w.files, w'.files) && SameDatabases(w, w')
  }

  lemma ArriveGameOnly(w: World, s: Schedule, p: Point, w': World)
    requires GameOnly(w, w')
    ensures GameOnly(w, Arrive(w', s, p))
  {
    ArriveKeeps(w', s, p);
    ArriveDatabases(w', s, p);
  }

  /** Only the game server has been at work on the databases. */
  ghost predicate SameDatabases(w: World, w': World) {
    && w'.accounts == w.accounts && w'.realms == w.realms && w'.realmRows == w.realmRows
    && (CharactersOwned(w) ==> CharactersOwned(w'))
  }

  lemma ArriveDatabases(w: World, s: Schedule, p: Point)
    ensures SameDatabases(w, Arrive(w, s, p))
  {
    if CharactersOwned(w) {
      PlayAllKeepsOwners(w, s(p).steps);
    }
  }

  // ---- upload, download, delete ----

  /** The posted file passes every test. */
  ghost predicate Acceptable(w: World, r: UploadRequest) {
    && ValidName(Canonical(r.account)) && r.upload.Some?
    && var u := r.upload.value;
       && u.error == 0 && 1 <= u.size <= 10485760 && u.isUploaded && HasNote(u.contents)
       && SafeDumpName(u.name).Some?
       && StoredPath(Canonical(r.account), SafeDumpName(u.name).value) !in w.files
  }

  /** An upload is stored exactly when it is acceptable and the move succeeds; it is then a new file
      with the posted contents, under a name that can be asked for again. Nothing is ever replaced. */
  lemma UploadDumpStores(w: World, r: UploadRequest, s: Schedule)
    ensures var o := UploadDump(w, r, s);
            && (o.reply.Uploaded? <==> Acceptable(w, r) && s(MoveUpload).ok)
            && (o.reply.Uploaded? ==>
                  && Sanitised(o.reply.file)
                  && var path := StoredPath(Canonical(r.account), o.reply.file);
                     && path !in w.files && path in o.world.files && o.world.files[path] == r.upload.value.contents
                     && StoreKeptBut(w.files, o.world.files, path))
            && (!o.reply.Uploaded? ==> StoreKept(w.files, o.world.files))
            && TempLoads(o.world.files) == TempLoads(w.files) && TempDumps(w.files) <= TempDumps(o.world.files)
  {
    CanonicalNames(r.account);
    ArriveKeeps(w, s, MoveUpload);
    if Acceptable(w, r) {
      var file := SafeDumpName(r.upload.value.name);
      SafeDumpNameFixed(r.upload.value.name);
      GeneratedPaths(Canonical(r.account), file.value, 0, 0);
      PathsApart(StoredPath(Canonical(r.account), file.value));
    }
  }

  /** The pair of account and name a request for a dump addresses. */
  ghost predicate Addresses(r: DumpRequest, account: string, file: string) {
    Canonical(r.account) == account && SafeDumpName(r.filename) == Some(file)
  }

  /** A download changes nothing and returns the contents exactly of the backup it addresses. */
  lemma DownloadReturns(w: World, r: DumpRequest, account: string, file: string)
    requires ValidName(account) && Addresses(r, account, file)
    ensures DownloadDump(w, r) ==
            Outcome(w, if StoredPath(account, file) in w.files then Download(w.files[StoredPath(account, file)])
                       else Failed(BackupNotFound))
  {
    CanonicalNames(r.account);
  }

  /** The request looks for a dump at the path. */
  ghost predicate LooksAt(q: DumpRequest, path: string) {
    && ValidName(Canonical(q.account)) && SafeDumpName(q.filename).Some?
    && path == StoredPath(Canonical(q.account), SafeDumpName(q.filename).value)
  }

  /** Some request does. */
  ghost predicate HasAddress(path: string) {
    exists q: DumpRequest :: LooksAt(q, path)
  }

  lemma AddressSanitised(q: DumpRequest, account: string, file: string)
    requires ValidName(account) && LooksAt(q, StoredPath(account, file))
    ensures Sanitised(file)
  {
    StoredPathInjective(account, file, Canonical(q.account), SafeDumpName(q.filename).value);
    SafeDumpNameFixed(q.filename);
  }

  lemma SanitisedAddress(account: string, file: string)
    requires ValidName(account) && Sanitised(file)
    ensures LooksAt(DumpRequest(account, file), StoredPath(account, file))
  {
    ValidNamesAreCanonical(account);
    SafeDumpNameFixed(file);
  }

  /** Under a validated account those are exactly the paths of sanitised names. */
  lemma AddressExact(account: string, file: string)
    requires ValidName(account)
    ensures HasAddress(StoredPath(account, file)) <==> Sanitised(file)
  {
    if q: DumpRequest :| LooksAt(q, StoredPath(account, file)) {
      AddressSanitised(q, account, file);
    } else if Sanitised(file) {
      SanitisedAddress(account, file);
    }
  }

  /** A download returns the contents of the path it looks at, and takes no notice of any other file. */
  lemma DownloadExact(w: World, q: DumpRequest, path: string)
    ensures LooksAt(q, path) && path in w.files ==> DownloadDump(w, q) == Outcome(w, Download(w.files[path]))
    ensures !LooksAt(q, path) ==> DownloadDump(w.(files := Without(w.files, path)), q).reply == DownloadDump(w, q).reply
  {
    CanonicalNames(q.account);
  }

  /** A deletion is announced exactly when the backup was there; it is gone exactly when the file
      could really be deleted. */
  lemma DeleteDumpRemoves(w: World, r: DumpRequest, s: Schedule, account: string, file: string)
    requires ValidName(account) && Addresses(r, account, file)
    ensures var o := DeleteDump(w, r, s); var path := StoredPath(account, file);
            && (o.reply == DumpDeleted(file) <==> path in w.files)
            && (path in w.files ==> (path !in o.world.files <==> s(Unlink(path)).ok))
            && (path !in w.files ==> o == Outcome(w, NothingDone))
            && StoreKeptBut(w.files, o.world.files, path)
  {
    CanonicalNames(r.account);
    GeneratedPaths(account, file, 0, 0);
    ArriveKeeps(w, s, Unlink(StoredPath(account, file)));
  }

  lemma RemoveDumpFrame(w: World, path: string, file: string, s: Schedule)
    requires InStore(path)
    ensures var o := RemoveDump(w, path, file, s);
            && TempLoads(o.world.files) == TempLoads(w.files) && TempDumps(w.files) <= TempDumps(o.world.files)
            && (if path in w.files then o.reply == DumpDeleted(file) else o == Outcome(w, NothingDone))
            && StoreKeptBut(w.files, o.world.files, path)
  {
    PathsApart(path);
    ArriveKeeps(w, s, Unlink(path));
  }

  lemma DeleteDumpFrame(w: World, r: DumpRequest, s: Schedule)
    ensures var o := DeleteDump(w, r, s);
            && TempLoads(o.world.files) == TempLoads(w.files) && TempDumps(w.files) <= TempDumps(o.world.files)
            && (!o.reply.DumpDeleted? ==> o.world == w)
            && (o.reply.DumpDeleted? ==>
                  && ValidName(Canonical(r.account)) && Addresses(r, Canonical(r.account), o.reply.file)
                  && StoreKeptBut(w.files, o.world.files, StoredPath(Canonical(r.account), o.reply.file)))
  {
    CanonicalNames(r.account);
    var file := SafeDumpName(r.filename);
    if file.Some? {
      GeneratedPaths(Canonical(r.account), file.value, 0, 0);
      RemoveDumpFrame(w, StoredPath(Canonical(r.account), file.value), file.value, s);
    }
  }

  lemma UploadDumpParts(w: World, r: UploadRequest, s: Schedule)
    ensures var o := UploadDump(w, r, s);
            || (o.world == w && o.reply.Failed?)
            || (&& MatchesName(Canonical(r.account)) && r.upload.Some? && SafeDumpName(r.upload.value.name).Some?
                && var file := SafeDumpName(r.upload.value.name).value;
                   o == SaveUpload(w, StoredPath(Canonical(r.account), file), file, r.upload.value.contents, s))
  {
  }

  lemma UploadDatabases(w: World, r: UploadRequest, s: Schedule)
    ensures SameDatabases(w, UploadDump(w, r, s).world)
  {
    UploadDumpParts(w, r, s);
    if r.upload.Some? && SafeDumpName(r.upload.value.name).Some? {
      var file := SafeDumpName(r.upload.value.name).value;
      SaveUploadDatabases(w, StoredPath(Canonical(r.account), file), file, r.upload.value.contents, s);
    }
  }

  lemma SaveUploadDatabases(w: World, path: string, file: string, contents: string, s: Schedule)
    ensures SameDatabases(w, SaveUpload(w, path, file, contents, s).world)
  {
    ArriveDatabases(w, s, MoveUpload);
  }

  lemma DeleteDumpDatabases(w: World, r: DumpRequest, s: Schedule)
    ensures SameDatabases(w, DeleteDump(w, r, s).world)
  {
    var file := SafeDumpName(r.filename);
    if file.Some? {
      var path := StoredPath(Canonical(r.account), file.value);
      RemoveDumpDatabases(w, path, file.value, s);
    }
  }

  lemma RemoveDumpDatabases(w: World, path: string, file: string, s: Schedule)
    ensures SameDatabases(w, RemoveDump(w, path, file, s).world)
  {
    ArriveDatabases(w, s, Unlink(path));
  }

  /** The announcement can be wrong: a file that cannot be deleted is reported as deleted. */
  lemma FalseDeletion(w: World, r: DumpRequest, s: Schedule, account: string, file: string)
    requires ValidName(account) && Addresses(r, account, file)
    requires StoredPath(account, file) in w.files && !s(Unlink(StoredPath(account, file))).ok
    ensures var o := DeleteDump(w, r, s);
            && o.reply == DumpDeleted(file)
            && DownloadDump(o.world, r) == Outcome(o.world, Download(w.files[StoredPath(account, file)]))
  {
    DeleteDumpRemoves(w, r, s, account, file);
    CanonicalNames(r.account);
    GeneratedPaths(account, file, 0, 0);
    ArriveKeeps(w, s, Unlink(StoredPath(account, file)));
  }

  lemma FalseDeletionExample() returns (w: World, r: DumpRequest, s: Schedule)
    ensures DeleteDump(w, r, s).reply == DumpDeleted("a.pdump") && DeleteDump(w, r, s).world == w
  {
    var path := StoredPath("GUEST", "a.pdump");
    w := World(map[], {}, map[], map[], map[path := "x"]);
    r := DumpRequest("GUEST", "a.pdump");
    s := p => Turn([], false);
    ValidNamesAreCanonical("GUEST");
    CanonicalNames("GUEST");
    assert Sanitised("a.pdump");
    SafeDumpNameFixed("a.pdump");
  }

  /** The life of an upload: whatever the game server does in between, the stored name, the posted
      name, and any other name that sanitises alike all fetch the posted contents and delete the same
      file; afterwards it is not found, and the rest of the store is as before the upload. */
  lemma UploadRoundTrip(w: World, r: UploadRequest, s: Schedule, steps: seq<GameStep>, q: DumpRequest, s': Schedule)
    requires UploadDump(w, r, s).reply.Uploaded?
    requires Addresses(q, Canonical(r.account), UploadDump(w, r, s).reply.file)
    requires s'(Unlink(StoredPath(Canonical(r.account), UploadDump(w, r, s).reply.file))).ok
    ensures Addresses(DumpRequest(r.account, r.upload.value.name), Canonical(r.account), UploadDump(w, r, s).reply.file)
    ensures var file := UploadDump(w, r, s).reply.file;
            Addresses(DumpRequest(r.account, file), Canonical(r.account), file)
    ensures var w1 := PlayAll(UploadDump(w, r, s).world, steps);
            var w2 := DeleteDump(w1, q, s').world;
            && DownloadDump(w1, q) == Outcome(w1, Download(r.upload.value.contents))
            && DownloadDump(w2, q) == Outcome(w2, Failed(BackupNotFound))
            && StoreKept(w.files, w2.files)
  {
    var o := UploadDump(w, r, s);
    UploadDumpStores(w, r, s);
    UploadedName(w, r, s);
    SafeDumpNameIdempotent(r.upload.value.name);
    StoredThenGone(o.world, steps, q, s', Canonical(r.account), o.reply.file);
  }

  lemma StoredThenGone(w: World, steps: seq<GameStep>, q: DumpRequest, s: Schedule, account: string, file: string)
    requires ValidName(account) && Addresses(q, account, file) && StoredPath(account, file) in w.files
    requires s(Unlink(StoredPath(account, file))).ok
    ensures var w1 := PlayAll(w, steps);
            var w2 := DeleteDump(w1, q, s).world;
            && DownloadDump(w1, q) == Outcome(w1, Download(w.files[StoredPath(account, file)]))
            && DownloadDump(w2, q) == Outcome(w2, Failed(BackupNotFound))
            && StoreKeptBut(w.files, w2.files, StoredPath(account, file)) && StoredPath(account, file) !in w2.files
  {
    var w1 := PlayAll(w, steps);
    PlayAllKeepsFiles(w, steps);
    KeptMeans(w.files, w1.files);
    GeneratedPaths(account, file, 0, 0);
    DownloadReturns(w1, q, account, file);
    DeleteDumpRemoves(w1, q, s, account, file);
    DownloadReturns(DeleteDump(w1, q, s).world, q, account, file);
  }

  lemma UploadedName(w: World, r: UploadRequest, s: Schedule)
    requires UploadDump(w, r, s).reply.Uploaded?
    ensures ValidName(Canonical(r.account))
    ensures SafeDumpName(r.upload.value.name) == Some(UploadDump(w, r, s).reply.file)
  {
    CanonicalNames(r.account);
    UploadDumpParts(w, r, s);
  }

  // ---- create_backup ----

  /** The world the loop sees at its i-th poll. */
  ghost function WorldAtPoll(w: World, s: Schedule, i: nat): World {
    Arrive(if i == 0 then w else WorldAtPoll(w, s, i - 1), s, Poll(i))
  }

  lemma {:induction false} PollsKeep(w: World, s: Schedule, i: nat)
    ensures FilesKept(w.files, WorldAtPoll(w, s, i).files)
    ensures StoreKept(w.files, WorldAtPoll(w, s, i).files)
    ensures TempLoads(WorldAtPoll(w, s, i).files) == TempLoads(w.files)
    ensures TempDumps(w.files) <= TempDumps(WorldAtPoll(w, s, i).files)
    ensures SameDatabases(w, WorldAtPoll(w, s, i))
  {
    var before := if i == 0 then w else WorldAtPoll(w, s, i - 1);
    if i > 0 {
      PollsKeep(w, s, i - 1);
    }
    ArriveKeeps(before, s, Poll(i));
    ArriveDatabases(before, s, Poll(i));
  }

  /** The dump is first there at poll i. */
  ghost predicate FirstSeen(w: World, s: Schedule, path: string, i: nat) {
    path in WorldAtPoll(w, s, i).files && forall j :: 0 <= j < i ==> path !in WorldAtPoll(w, s, j).files
  }

  ghost predicate BigAt(w: World, s: Schedule, path: string, i: nat) {
    path in WorldAtPoll(w, s, i).files && |WorldAtPoll(w, s, i).files[path]| > 50
  }

  lemma {:induction false} PollRemembers(w: World, s: Schedule, path: string, i: nat, size: nat)
    requires 0 < i <= POLLS && size <= 50
    ensures PollFor(WorldAtPoll(w, s, i - 1), s, path, i, Some(size))
         == Sighting(WorldAtPoll(w, s, POLLS - 1), false, POLLS)
    decreases POLLS - i
  {
    if i < POLLS {
      PollRemembers(w, s, path, i + 1, size);
    }
  }

  /** What the loop says, started at poll i when no earlier poll saw the file. */
  ghost predicate PollsRight(w: World, s: Schedule, path: string, r: Sighting, n: nat) {
    if r.found
    then n < 20 && FirstSeen(w, s, path, n) && BigAt(w, s, path, n) && r == Sighting(WorldAtPoll(w, s, n), true, n + 1)
    else && r == Sighting(WorldAtPoll(w, s, 19), false, 20)
         && forall k :: 0 <= k < 20 && FirstSeen(w, s, path, k) ==> !BigAt(w, s, path, k)
  }

  lemma SeenOnce(w: World, s: Schedule, path: string, i: nat)
    requires FirstSeen(w, s, path, i)
    ensures forall k :: 0 <= k && FirstSeen(w, s, path, k) ==> k == i
  {
  }

  lemma PollSeesFirst(w: World, s: Schedule, path: string, i: nat)
    requires i < POLLS && FirstSeen(w, s, path, i)
    ensures PollsRight(w, s, path, PollFor(if i == 0 then w else WorldAtPoll(w, s, i - 1), s, path, i, None), i)
  {
    if !BigAt(w, s, path, i) {
      PollRemembers(w, s, path, i + 1, |WorldAtPoll(w, s, i).files[path]|);
      SeenOnce(w, s, path, i);
    }
  }

  lemma {:induction false} PollFrom(w: World, s: Schedule, path: string, i: nat) returns (n: nat)
    requires i <= POLLS
    requires forall j :: 0 <= j < i ==> path !in WorldAtPoll(w, s, j).files
    ensures PollsRight(w, s, path, PollFor(if i == 0 then w else WorldAtPoll(w, s, i - 1), s, path, i, None), n)
    decreases POLLS - i
  {
    n := i;
    if i < POLLS {
      if path !in WorldAtPoll(w, s, i).files {
        n := PollFrom(w, s, path, i + 1);
      } else {
        PollSeesFirst(w, s, path, i);
      }
    }
  }

  /** Poll i, one of 20, is the first at which the file exists, and sees more than 50 bytes. */
  ghost predicate SeenAt(w: World, s: Schedule, path: string, i: nat) {
    i < 20 && FirstSeen(w, s, path, i) && BigAt(w, s, path, i)
  }

  /** The loop polls at most 20 times, and finds the dump exactly when the first poll at which the
      file exists sees more than 50 bytes; it stops there. */
  lemma PollingExact(w: World, s: Schedule, path: string) returns (n: nat)
    ensures PollFor(w, s, path, 0, None).found <==> exists i: nat :: SeenAt(w, s, path, i)
    ensures var r := PollFor(w, s, path, 0, None);
            if r.found then SeenAt(w, s, path, n) && r == Sighting(WorldAtPoll(w, s, n), true, n + 1)
            else r == Sighting(WorldAtPoll(w, s, 19), false, 20)
  {
    n := PollFrom(w, s, path, 0);
    if PollFor(w, s, path, 0, None).found {
      assert SeenAt(w, s, path, n);
    }
  }

  /** So a dump is found at each of the 20 polls, if it is first seen there and then has more than 50
      bytes. */
  lemma FoundAtAnyPoll(w: World, s: Schedule, path: string, i: nat)
    requires i < 20 && path in WorldAtPoll(w, s, i).files && |WorldAtPoll(w, s, i).files[path]| > 50
    requires forall j :: 0 <= j < i ==> path !in WorldAtPoll(w, s, j).files
    ensures PollFor(w, s, path, 0, None) == Sighting(WorldAtPoll(w, s, i), true, i + 1)
  {
    assert SeenAt(w, s, path, i);
    var n := PollingExact(w, s, path);
    SeenOnce(w, s, path, i);
  }

  /** Without PHP's memory of sizes any poll would do; with it, the two differ exactly when the dump
      is first seen with at most 50 bytes and has more at a later poll. */
  lemma StaleSizeExact(w: World, s: Schedule, path: string)
    ensures var found := PollFor(w, s, path, 0, None).found;
            var everBig := exists i :: 0 <= i < 20 && BigAt(w, s, path, i);
            && (found ==> everBig)
            && (everBig && !found <==>
                  exists i, j :: 0 <= i < j < 20 && FirstSeen(w, s, path, i) && !BigAt(w, s, path, i) && BigAt(w, s, path, j))
  {
    var n := PollingExact(w, s, path);
    if j :| 0 <= j < 20 && BigAt(w, s, path, j) {
      var i := FirstSighting(w, s, path, j);
      SeenOnce(w, s, path, i);
      assert BigAt(w, s, path, i) <==> SeenAt(w, s, path, i);
    }
  }

  lemma {:induction false} FirstSighting(w: World, s: Schedule, path: string, j: nat) returns (i: nat)
    requires path in WorldAtPoll(w, s, j).files
    ensures i <= j && FirstSeen(w, s, path, i)
  {
    if k :| 0 <= k < j && path in WorldAtPoll(w, s, k).files {
      i := FirstSighting(w, s, path, k);
    } else {
      i := j;
    }
  }

  lemma SeenInPieces(w: World, s: Schedule, piece: GameStep, whole: GameStep)
    requires piece.WriteDump? && whole.WriteDump? && piece.dumped == whole.dumped && piece.time == whole.time
    requires |piece.contents| <= 50 < |whole.contents|
    requires s(Poll(0)).steps == [piece] && s(Poll(1)).steps == [whole]
    ensures var path := TempDumpPath(piece.dumped, piece.time);
            !PollFor(w, s, path, 0, None).found && BigAt(w, s, path, 1)
  {
    var path := TempDumpPath(piece.dumped, piece.time);
    OneStep(w, piece);
    OneStep(WorldAtPoll(w, s, 0), whole);
    assert FirstSeen(w, s, path, 0) && !BigAt(w, s, path, 0);
    SeenOnce(w, s, path, 0);
    var n := PollingExact(w, s, path);
  }

  /** A dump that is written in two pieces is missed: its first piece fixes the remembered size. */
  lemma StaleSizeExample(guid: nat, time: nat) returns (w: World, s: Schedule)
    ensures var path := TempDumpPath(guid, time);
            !PollFor(w, s, path, 0, None).found && BigAt(w, s, path, 1)
  {
    w := World(map[], {}, map[], map[], map[]);
    var contents := seq(51, _ => 'x');
    var piece, whole := WriteDump(guid, time, ""), WriteDump(guid, time, contents);
    s := p => Turn(if p == Poll(0) then [piece] else if p == Poll(1) then [whole] else [], true);
    SeenInPieces(w, s, piece, whole);
  }

  /** The world once the account and the character have been read. */
  ghost function AtRead(w: World, s: Schedule): World {
    Arrive(Arrive(Arrive(Arrive(w, s, Connect), s, FindAccount), s, ConnectCharacters), s, ReadCharacter)
  }

  /** The reads succeed, and the account of that name owns a character with that guid and a name PHP
      takes for true. */
  ghost predicate CanFetch(w: World, account: string, guid: int, s: Schedule) {
    && s(Connect).ok && s(FindAccount).ok && s(ConnectCharacters).ok && s(ReadCharacter).ok
    && Taken(w.accounts, account)
    && var id := Lookup(w.accounts, account).value;
       id != 0 && Owned(AtRead(w, s), guid, id) && AtRead(w, s).characters[guid].name !in ["", "0"]
  }

  lemma ReadGameOnly(w: World, s: Schedule)
    ensures GameOnly(w, Arrive(w, s, Connect))
    ensures GameOnly(w, Arrive(Arrive(w, s, Connect), s, FindAccount))
    ensures GameOnly(w, Arrive(Arrive(Arrive(w, s, Connect), s, FindAccount), s, ConnectCharacters))
    ensures GameOnly(w, AtRead(w, s))
  {
    ArriveGameOnly(w, s, Connect, w);
    var w1 := Arrive(w, s, Connect);
    ArriveGameOnly(w, s, FindAccount, w1);
    var w2 := Arrive(w1, s, FindAccount);
    ArriveGameOnly(w, s, ConnectCharacters, w2);
    ArriveGameOnly(w, s, ReadCharacter, Arrive(w2, s, ConnectCharacters));
  }

  lemma SaveCharacterParts(w: World, account: string, r: BackupRequest, s: Schedule)
    requires r.guid > 0
    ensures var o := SaveCharacter(w, account, r, s);
            if CanFetch(w, account, r.guid, s)
            then o == FetchDump(AtRead(w, s), account, AtRead(w, s).characters[r.guid].name, r, s)
            else o.reply.Failed? && GameOnly(w, o.world)
  {
    ReadGameOnly(w, s);
  }

  /** Up to the point where the server is asked for a dump, create_backup only reads. */
  lemma CreateBackupParts(w: World, r: BackupRequest, s: Schedule)
    ensures var o := CreateBackup(w, r, s);
            var w0, account := Arrive(w, s, ServerCheck), Canonical(r.account);
            if s(ServerCheck).ok && ValidName(account) && r.guid > 0 && CanFetch(w0, account, r.guid, s)
            then && GameOnly(w, AtRead(w0, s))
                 && o == FetchDump(AtRead(w0, s), account, AtRead(w0, s).characters[r.guid].name, r, s)
            else o.reply.Failed? && GameOnly(w, o.world)
  {
    CanonicalNames(r.account);
    ArriveGameOnly(w, s, ServerCheck, w);
    var w0, account := Arrive(w, s, ServerCheck), Canonical(r.account);
    if s(ServerCheck).ok && ValidName(account) && r.guid > 0 {
      SaveCharacterParts(w0, account, r, s);
      ReadGameOnly(w0, s);
      GameOnlyTrans(w, w0, AtRead(w0, s));
      if !CanFetch(w0, account, r.guid, s) {
        GameOnlyTrans(w, w0, SaveCharacter(w0, account, r, s).world);
      }
    }
  }

  /** The world in which the dump is moved, if poll i was the last. */
  ghost function AtRename(w: World, s: Schedule, i: nat): World {
    Arrive(WorldAtPoll(Arrive(w, s, SendCommand), s, i), s, Rename)
  }

  ghost predicate Appears(w: World, s: Schedule, path: string) {
    exists i: nat :: SeenAt(Arrive(w, s, SendCommand), s, path, i)
  }

  lemma GameOnlyTrans(w: World, w1: World, w2: World)
    requires GameOnly(w, w1) && GameOnly(w1, w2)
    ensures GameOnly(w, w2)
  {
  }

  lemma RenameReached(w: World, s: Schedule, i: nat)
    ensures GameOnly(w, Arrive(w, s, SendCommand))
    ensures GameOnly(w, WorldAtPoll(Arrive(w, s, SendCommand), s, i))
    ensures GameOnly(w, AtRename(w, s, i))
  {
    ArriveGameOnly(w, s, SendCommand, w);
    var w1 := Arrive(w, s, SendCommand);
    PollsKeep(w1, s, i);
    var w2 := WorldAtPoll(w1, s, i);
    GameOnlyTrans(w, w1, w2);
    ArriveGameOnly(w, s, Rename, w2);
  }

  /** A file that was seen is still there at the rename. */
  lemma StillThere(w: World, s: Schedule, path: string, i: nat)
    requires SeenAt(Arrive(w, s, SendCommand), s, path, i)
    ensures path in AtRename(w, s, i).files
  {
    ArriveKeeps(WorldAtPoll(Arrive(w, s, SendCommand), s, i), s, Rename);
  }

  lemma FetchDumpShape(w: World, account: string, character: string, r: BackupRequest, s: Schedule) returns (i: nat)
    requires r.guid > 0
    ensures var o := FetchDump(w, account, character, r, s);
            var source, target := TempDumpPath(r.guid, r.time), StoredPath(account, BackupName(character, r.stamp));
            var at := AtRename(w, s, i);
            if s(SendCommand).ok && Appears(w, s, source) && s(Rename).ok
            then && SeenAt(Arrive(w, s, SendCommand), s, source, i) && source in at.files
                 && o == Outcome(at.(files := Moved(at.files, source, target)), BackedUp(character))
            else o.reply.Failed? && GameOnly(w, o.world)
  {
    var source := TempDumpPath(r.guid, r.time);
    i := PollingExact(Arrive(w, s, SendCommand), s, source);
    RenameReached(w, s, i);
    RenameReached(w, s, 19);
    if Appears(w, s, source) {
      StillThere(w, s, source, i);
    }
  }

  /** The dump is moved exactly when the command could be sent, the first poll at which the file
      exists, one of the 20, sees more than 50 bytes, and the rename succeeded; then the file is the
      backup as it was at the rename, its temporary name is gone, and no other backup is touched.
      Otherwise the store is unchanged and the visitor is told of a failure. */
  lemma FetchDumpMoves(w: World, account: string, character: string, r: BackupRequest, s: Schedule) returns (i: nat)
    requires r.guid > 0
    ensures var o := FetchDump(w, account, character, r, s);
            var source, target := TempDumpPath(r.guid, r.time), StoredPath(account, BackupName(character, r.stamp));
            && (o.reply.BackedUp? <==> s(SendCommand).ok && Appears(w, s, source) && s(Rename).ok)
            && (o.reply.BackedUp? ==>
                  && o.reply.character == character && SeenAt(Arrive(w, s, SendCommand), s, source, i)
                  && source in AtRename(w, s, i).files && source !in o.world.files
                  && target in o.world.files && o.world.files[target] == AtRename(w, s, i).files[source]
                  && StoreKeptBut(w.files, o.world.files, target))
            && (!o.reply.BackedUp? ==> o.reply.Failed? && StoreKept(w.files, o.world.files)
                                       && TempDumps(w.files) <= TempDumps(o.world.files))
            && TempLoads(o.world.files) == TempLoads(w.files) && SameDatabases(w, o.world)
  {
    var source, target := TempDumpPath(r.guid, r.time), StoredPath(account, BackupName(character, r.stamp));
    i := FetchDumpShape(w, account, character, r, s);
    RenameReached(w, s, i);
    var o, at := FetchDump(w, account, character, r, s), AtRename(w, s, i);
    if o.reply.Failed? {
      KeptMeans(w.files, o.world.files);
    } else {
      KeptMeans(w.files, at.files);
      GeneratedPaths(account, BackupName(character, r.stamp), r.guid, r.time);
      MovedKeeps(at, source, target);
    }
  }

  lemma MovedKeeps(w: World, source: string, target: string)
    requires source in w.files && IsTempDump(source) && InStore(target)
    ensures var files := Moved(w.files, source, target);
            && source !in files && target in files && files[target] == w.files[source]
            && StoreKeptBut(w.files, files, target) && TempLoads(files) == TempLoads(w.files)
            && SameDatabases(w, w.(files := files))
  {
    PathsApart(source);
    PathsApart(target);
  }

  // ---- restore_backup ----

  /** The load files of the listing that can be deleted. */
  ghost function Deleted(listing: seq<string>, s: Schedule): set<string> {
    set p | p in listing && s(Unlink(p)).ok
  }

  lemma WithoutLoad(w: World, temp: string)
    requires IsTempLoad(temp)
    ensures StoreKept(w.files, Without(w.files, temp)) && TempDumps(Without(w.files, temp)) == TempDumps(w.files)
    ensures TempLoads(Without(w.files, temp)) == TempLoads(w.files) - {temp}
    ensures SameDatabases(w, w.(files := Without(w.files, temp)))
  {
    PathsApart(temp);
  }

  lemma CleanupLast(w: World, path: string, s: Schedule)
    requires IsTempLoad(path)
    ensures var w1 := Arrive(w, s, Unlink(path));
            var w2 := if s(Unlink(path)).ok then w1.(files := Without(w1.files, path)) else w1;
            && StoreKept(w.files, w2.files) && TempDumps(w.files) <= TempDumps(w2.files) && SameDatabases(w, w2)
            && TempLoads(w2.files) == TempLoads(w.files) - (if s(Unlink(path)).ok then {path} else {})
  {
    ArriveKeeps(w, s, Unlink(path));
    ArriveDatabases(w, s, Unlink(path));
    WithoutLoad(Arrive(w, s, Unlink(path)), path);
  }

  /** The cleanup loop removes exactly the load files it can delete; a backup or a dump being written
      is never removed, whatever the game server does between two deletions. */
  lemma {:induction false} CleanupKeeps(w: World, listing: seq<string>, s: Schedule)
    requires forall p :: p in listing ==> IsTempLoad(p)
    ensures var w' := Cleanup(w, listing, s);
            && StoreKept(w.files, w'.files) && TempDumps(w.files) <= TempDumps(w'.files) && SameDatabases(w, w')
            && TempLoads(w'.files) == TempLoads(w.files) - Deleted(listing, s)
  {
    if listing != [] {
      var rest, path := listing[..|listing| - 1], listing[|listing| - 1];
      assert listing == rest + [path];
      CleanupKeeps(w, rest, s);
      CleanupLast(Cleanup(w, rest, s), path, s);
      assert Deleted(listing, s) == Deleted(rest, s) + (if s(Unlink(path)).ok then {path} else {});
    }
  }

  /** The world when the copy is made. */
  ghost function AtCopy(w: World, listing: seq<string>, s: Schedule): World {
    var w1 := Arrive(w, s, Glob);
    Arrive(if s(Glob).ok && IsListing(listing, w1.files) then Cleanup(w1, listing, s) else w1, s, Copy)
  }

  /** The load files that survive the cleanup. */
  ghost function Survivors(w: World, listing: seq<string>, s: Schedule): set<string> {
    if s(Glob).ok && IsListing(listing, w.files) then set p | p in TempLoads(w.files) && !s(Unlink(p)).ok
    else TempLoads(w.files)
  }

  lemma ListingMeans(listing: seq<string>, files: Files, files': Files)
    requires TempLoads(files) == TempLoads(files')
    ensures IsListing(listing, files) <==> IsListing(listing, files')
    ensures IsListing(listing, files) ==> forall p :: p in listing <==> p in TempLoads(files)
  {
    assert TempLoads(files) == (set p | p in files && IsTempLoad(p));
    assert TempLoads(files') == (set p | p in files' && IsTempLoad(p));
    assert forall p :: p in listing <==> p in (set q | q in listing);
  }

  lemma CopyReached(w: World, listing: seq<string>, s: Schedule)
    ensures var w' := AtCopy(w, listing, s);
            && StoreKept(w.files, w'.files) && TempDumps(w.files) <= TempDumps(w'.files)
            && TempLoads(w'.files) == Survivors(w, listing, s) && SameDatabases(w, w')
  {
    ArriveKeeps(w, s, Glob);
    ArriveDatabases(w, s, Glob);
    var w1 := Arrive(w, s, Glob);
    ListingMeans(listing, w.files, w1.files);
    var w2 := if s(Glob).ok && IsListing(listing, w1.files) then Cleanup(w1, listing, s) else w1;
    if s(Glob).ok && IsListing(listing, w1.files) {
      CleanupKeeps(w1, listing, s);
      assert TempLoads(w2.files) == Survivors(w, listing, s);
    }
    ArriveKeeps(w2, s, Copy);
    ArriveDatabases(w2, s, Copy);
  }

  /** The world after the copy, when the command is sent or has failed. */
  ghost function Copied(w: World, path: string, temp: string): World
    requires path in w.files
  {
    w.(files := w.files[temp := w.files[path]])
  }

  lemma LoadDumpShape(w: World, path: string, file: string, target: string, time: nat,
                       listing: seq<string>, s: Schedule)
    requires path in AtCopy(w, listing, s).files
    ensures var o := LoadDump(w, path, file, target, time, listing, s);
            var temp := TempLoadPath(time);
            var sent := Arrive(Copied(AtCopy(w, listing, s), path, temp), s, SendCommand);
            var last := Arrive(sent, s, UnlinkTemp);
            if !s(Copy).ok then o == Outcome(AtCopy(w, listing, s), Failed(NotCopied))
            else if s(SendCommand).ok then o == Outcome(sent, Restoring(file, target))
            else o == Outcome(if s(UnlinkTemp).ok then last.(files := Without(last.files, temp)) else last, Failed(CommandNotSent))
  {
  }

  lemma CopiedKeeps(w: World, path: string, temp: string)
    requires path in w.files && IsTempLoad(temp)
    ensures var w' := Copied(w, path, temp);
            && StoreKept(w.files, w'.files) && TempDumps(w'.files) == TempDumps(w.files) && SameDatabases(w, w')
            && TempLoads(w'.files) == TempLoads(w.files) + {temp} && temp in w'.files && w'.files[temp] == w.files[path]
  {
    PathsApart(temp);
  }

  /** What restore_backup leaves among the load files: those whose deletion failed, and the new copy
      exactly when the command was sent or the copy could not be deleted again. The copy has the
      contents of the backup; backups and dumps being written stay as they are. */
  lemma LoadDumpLeaves(w: World, path: string, file: string, target: string, time: nat,
                       listing: seq<string>, s: Schedule)
    requires path in w.files && InStore(path)
    ensures var o := LoadDump(w, path, file, target, time, listing, s);
            var temp := TempLoadPath(time);
            && (if s(Copy).ok && s(SendCommand).ok then o.reply == Restoring(file, target) else o.reply.Failed?)
            && TempLoads(o.world.files) == (if !s(Copy).ok then Survivors(w, listing, s)
                                            else if s(SendCommand).ok || !s(UnlinkTemp).ok then Survivors(w, listing, s) + {temp}
                                            else Survivors(w, listing, s) - {temp})
            && (o.reply.Restoring? ==> temp in o.world.files && o.world.files[temp] == w.files[path])
            && StoreKept(w.files, o.world.files) && TempDumps(w.files) <= TempDumps(o.world.files)
            && SameDatabases(w, o.world)
  {
    var temp := TempLoadPath(time);
    GeneratedPaths("", "", 0, time);
    CopyReached(w, listing, s);
    LoadDumpShape(w, path, file, target, time, listing, s);
    var w1 := AtCopy(w, listing, s);
    if s(Copy).ok {
      CopiedKeeps(w1, path, temp);
      var w2 := Copied(w1, path, temp);
      PathsApart(temp);
      ArriveKeeps(w2, s, SendCommand);
      ArriveDatabases(w2, s, SendCommand);
      var w3 := Arrive(w2, s, SendCommand);
      if !s(SendCommand).ok {
        ArriveKeeps(w3, s, UnlinkTemp);
        ArriveDatabases(w3, s, UnlinkTemp);
        WithoutLoad(Arrive(w3, s, UnlinkTemp), temp);
      }
    }
  }

  // ---- whole requests ----

  /** create_backup succeeds exactly when the server runs, the form names an account and a character
      it owns, no statement fails, and the polling loop finds the dump. */
  lemma CreateBackupSucceeds(w: World, r: BackupRequest, s: Schedule)
    ensures var o := CreateBackup(w, r, s);
            var w0, account := Arrive(w, s, ServerCheck), Canonical(r.account);
            && (o.reply.BackedUp? <==>
                  && s(ServerCheck).ok && ValidName(account) && r.guid > 0 && CanFetch(w0, account, r.guid, s)
                  && s(SendCommand).ok && Appears(AtRead(w0, s), s, TempDumpPath(r.guid, r.time)) && s(Rename).ok)
            && (o.reply.BackedUp? ==> o.reply.character == AtRead(w0, s).characters[r.guid].name)
  {
    CreateBackupParts(w, r, s);
    var w0, account := Arrive(w, s, ServerCheck), Canonical(r.account);
    if s(ServerCheck).ok && ValidName(account) && r.guid > 0 && CanFetch(w0, account, r.guid, s) {
      var i := FetchDumpMoves(AtRead(w0, s), account, AtRead(w0, s).characters[r.guid].name, r, s);
    }
  }

  /** create_backup as a whole: at most the addressed backup is written, and only on success. */
  lemma CreateBackupFrame(w: World, r: BackupRequest, s: Schedule)
    ensures var o := CreateBackup(w, r, s);
            && (o.reply.BackedUp? || o.reply.Failed?)
            && SameDatabases(w, o.world) && TempLoads(o.world.files) == TempLoads(w.files)
            && (o.reply.Failed? ==> StoreKept(w.files, o.world.files))
            && (o.reply.BackedUp? ==>
                  && ValidName(Canonical(r.account))
                  && var path := StoredPath(Canonical(r.account), BackupName(o.reply.character, r.stamp));
                     path in o.world.files && StoreKeptBut(w.files, o.world.files, path))
  {
    CreateBackupParts(w, r, s);
    var w0, account := Arrive(w, s, ServerCheck), Canonical(r.account);
    if s(ServerCheck).ok && ValidName(account) && r.guid > 0 && CanFetch(w0, account, r.guid, s) {
      KeptMeans(w.files, AtRead(w0, s).files);
      var i := FetchDumpMoves(AtRead(w0, s), account, AtRead(w0, s).characters[r.guid].name, r, s);
    } else {
      KeptMeans(w.files, CreateBackup(w, r, s).world.files);
    }
  }

  ghost predicate Writes(step: GameStep, path: string) {
    step.WriteDump? && TempDumpPath(step.dumped, step.time) == path
  }

  /** What a dump contains after the steps: what the last of them wrote to it, if any did. */
  ghost function LastWritten(contents: string, steps: seq<GameStep>, path: string): string {
    if steps == [] then contents
    else if Writes(steps[|steps| - 1], path) then steps[|steps| - 1].contents
    else LastWritten(contents, steps[..|steps| - 1], path)
  }

  lemma StepContents(u: World, step: GameStep, path: string)
    requires path in u.files
    ensures path in Play(u, step).files
    ensures Play(u, step).files[path] == if Writes(step, path) then step.contents else u.files[path]
  {
  }

  lemma {:induction false} PlayedContents(w: World, steps: seq<GameStep>, path: string)
    requires path in w.files
    ensures path in PlayAll(w, steps).files
    ensures PlayAll(w, steps).files[path] == LastWritten(w.files[path], steps, path)
  {
    if steps != [] {
      var t, last := steps[..|steps| - 1], steps[|steps| - 1];
      PlayedContents(w, t, path);
      StepContents(PlayAll(w, t), last, path);
    }
  }

  /** Step i is the last to write the dump, and writes at most 50 bytes. */
  ghost predicate CutsShort(steps: seq<GameStep>, path: string, i: nat)
    requires i < |steps|
  {
    Writes(steps[i], path) && |steps[i].contents| <= 50 && forall j :: i < j < |steps| ==> !Writes(steps[j], path)
  }

  lemma CutsExtend(t: seq<GameStep>, last: GameStep, path: string, i: nat)
    requires i < |t|
    ensures CutsShort(t + [last], path, i) <==> CutsShort(t, path, i) && !Writes(last, path)
  {
    if CutsShort(t + [last], path, i) {
      assert (t + [last])[|t|] == last;
      assert forall j :: i < j < |t| ==> (t + [last])[j] == t[j];
    }
  }

  lemma {:induction false} LastWrittenShort(contents: string, steps: seq<GameStep>, path: string)
    requires |contents| > 50
    ensures |LastWritten(contents, steps, path)| <= 50 <==> exists i :: 0 <= i < |steps| && CutsShort(steps, path, i)
  {
    if steps != [] {
      var t, last := steps[..|steps| - 1], steps[|steps| - 1];
      assert steps == t + [last];
      LastWrittenShort(contents, t, path);
      forall i | 0 <= i < |t|
        ensures CutsShort(steps, path, i) <==> CutsShort(t, path, i) && !Writes(last, path)
      {
        CutsExtend(t, last, path, i);
      }
      assert CutsShort(steps, path, |t|) <==> Writes(last, path) && |last.contents| <= 50;
    }
  }

  /** A backup that was announced is the dump as the poll saw it that found it, unless the game server
      wrote it again before the rename. So it has more than 50 bytes except exactly when the last such
      write had not. */
  lemma BackupContents(w: World, r: BackupRequest, s: Schedule) returns (n: nat)
    requires CreateBackup(w, r, s).reply.BackedUp?
    ensures r.guid > 0
    ensures var o := CreateBackup(w, r, s);
            var path := StoredPath(Canonical(r.account), BackupName(o.reply.character, r.stamp));
            var source := TempDumpPath(r.guid, r.time);
            var w2 := Arrive(AtRead(Arrive(w, s, ServerCheck), s), s, SendCommand);
            && SeenAt(w2, s, source, n) && path in o.world.files
            && o.world.files[path] == LastWritten(WorldAtPoll(w2, s, n).files[source], s(Rename).steps, source)
            && (|o.world.files[path]| <= 50 <==>
                  exists i :: 0 <= i < |s(Rename).steps| && CutsShort(s(Rename).steps, source, i))
  {
    CreateBackupParts(w, r, s);
    CreateBackupSucceeds(w, r, s);
    var w1 := AtRead(Arrive(w, s, ServerCheck), s);
    n := FetchDumpMoves(w1, Canonical(r.account), w1.characters[r.guid].name, r, s);
    var source := TempDumpPath(r.guid, r.time);
    var seen := WorldAtPoll(Arrive(w1, s, SendCommand), s, n);
    PlayedContents(seen, s(Rename).steps, source);
    LastWrittenShort(seen.files[source], s(Rename).steps, source);
  }

  lemma QuietReads(w: World, s: Schedule)
    requires forall p: Point :: !p.Poll? && p != Rename ==> s(p).steps == []
    ensures Arrive(w, s, ServerCheck) == w && AtRead(w, s) == w && Arrive(w, s, SendCommand) == w
  {
  }

  lemma SeenAtOnce(w: World, s: Schedule, step: GameStep)
    requires step.WriteDump? && |step.contents| > 50 && s(Poll(0)).steps == [step]
    ensures SeenAt(w, s, TempDumpPath(step.dumped, step.time), 0)
  {
    OneStep(w, step);
    assert WorldAtPoll(w, s, 0) == Play(w, step);
  }

  lemma CutAtRename(contents: string, step: GameStep)
    requires step.WriteDump?
    ensures LastWritten(contents, [step], TempDumpPath(step.dumped, step.time)) == step.contents
  {
  }

  /** A backup of any character comes out empty if the server begins to write the dump anew just before
      the rename. */
  lemma ShortBackupExample(character: string, guid: int, time: nat, stamp: string)
      returns (w: World, r: BackupRequest, s: Schedule)
    requires character !in ["", "0"] && guid > 0
    ensures r.stamp == stamp && CreateBackup(w, r, s).reply == BackedUp(character)
    ensures var path := StoredPath(Canonical(r.account), BackupName(character, r.stamp));
            path in CreateBackup(w, r, s).world.files && CreateBackup(w, r, s).world.files[path] == ""
  {
    w := World(map[1 := Account("GUEST", "", "")], {}, map[], map[guid := Character(character, 1, 1, 0, false)], map[]);
    r := BackupRequest("GUEST", guid, time, stamp);
    var contents := seq(51, _ => 'x');
    var whole, again := WriteDump(guid, time, contents), WriteDump(guid, time, "");
    s := p => Turn(if p == Poll(0) then [whole] else if p == Rename then [again] else [], true);
    QuietReads(w, s);
    Rewritten(w, r, s, whole, again, 1, character);
  }

  lemma Rewritten(w: World, r: BackupRequest, s: Schedule, whole: GameStep, again: GameStep, id: int, character: string)
    requires forall p :: s(p).ok
    requires Arrive(w, s, ServerCheck) == w && AtRead(w, s) == w && Arrive(w, s, SendCommand) == w
    requires s(Poll(0)).steps == [whole] && s(Rename).steps == [again]
    requires r.guid > 0 && whole.WriteDump? && whole.dumped == r.guid && whole.time == r.time && |whole.contents| > 50
    requires again.WriteDump? && again.dumped == r.guid && again.time == r.time
    requires r.account == "GUEST" && w.accounts == map[id := Account("GUEST", "", "")] && id != 0
    requires r.guid in w.characters && w.characters[r.guid].account == id && w.characters[r.guid].name == character
    requires character !in ["", "0"]
    ensures CreateBackup(w, r, s).reply == BackedUp(character)
    ensures var path := StoredPath(Canonical(r.account), BackupName(character, r.stamp));
            path in CreateBackup(w, r, s).world.files && CreateBackup(w, r, s).world.files[path] == again.contents
  {
    ValidNamesAreCanonical("GUEST");
    assert w.accounts[id].username == "GUEST";
    assert Lookup(w.accounts, "GUEST") == Some(id);
    SeenAtOnce(w, s, whole);
    CreateBackupSucceeds(w, r, s);
    var n := BackupContents(w, r, s);
    CutAtRename(WorldAtPoll(w, s, n).files[TempDumpPath(r.guid, r.time)], again);
  }

  /** A backup that was announced can be downloaded under its own name, whatever the game server does
      in between, exactly when the character's name has at most 32 safe characters; otherwise no
      request looks at it, under any name. */
  lemma BackupRoundTrip(w: World, r: BackupRequest, s: Schedule, steps: seq<GameStep>)
    requires CreateBackup(w, r, s).reply.BackedUp? && IsStamp(r.stamp)
    ensures var o := CreateBackup(w, r, s); var w' := PlayAll(o.world, steps);
            var name := BackupName(o.reply.character, r.stamp); var path := StoredPath(Canonical(r.account), name);
            && path in o.world.files
            && (SafeDumpName(name) == Some(name) <==> AllSafe(o.reply.character) && |o.reply.character| <= 32)
            && (SafeDumpName(name) == Some(name) ==>
                  DownloadDump(w', DumpRequest(r.account, name)) == Outcome(w', Download(o.world.files[path])))
            && (SafeDumpName(name) != Some(name) ==> !HasAddress(path))
  {
    var o := CreateBackup(w, r, s);
    var name := BackupName(o.reply.character, r.stamp);
    var path := StoredPath(Canonical(r.account), name);
    CreateBackupParts(w, r, s);
    CreateBackupFrame(w, r, s);
    var w1 := AtRead(Arrive(w, s, ServerCheck), s);
    var i := FetchDumpMoves(w1, Canonical(r.account), w1.characters[r.guid].name, r, s);
    BackupAddressable(o.reply.character, r.stamp);
    AddressExact(Canonical(r.account), name);
    SafeDumpNameFixed(name);
    PlayAllKeepsFiles(o.world, steps);
    KeptMeans(o.world.files, PlayAll(o.world, steps).files);
    GeneratedPaths(Canonical(r.account), name, 0, 0);
    if SafeDumpName(name) == Some(name) {
      DownloadReturns(PlayAll(o.world, steps), DumpRequest(r.account, name), Canonical(r.account), name);
    }
  }

  /** So the backup of a character with an accented letter is announced, and no request can return it. */
  lemma UnreachableExample(guid: int, time: nat, stamp: string)
      returns (w: World, r: BackupRequest, s: Schedule, path: string)
    requires guid > 0 && IsStamp(stamp)
    ensures CreateBackup(w, r, s).reply.BackedUp? && path in CreateBackup(w, r, s).world.files
    ensures InStore(path) && !HasAddress(path)
  {
    var character := "Zo\U{C3}\U{AB}";
    w, r, s := ShortBackupExample(character, guid, time, stamp);
    path := StoredPath(Canonical(r.account), BackupName(character, r.stamp));
    BackupRoundTrip(w, r, s, []);
    assert !IsSafe(character[2]);
    GeneratedPaths(Canonical(r.account), BackupName(character, r.stamp), 0, 0);
  }

  /** The form names a backup that is there, and two admissible accounts. */
  ghost predicate Restorable(w: World, r: RestoreRequest, s: Schedule) {
    && s(ServerCheck).ok && SafeDumpName(r.filename).Some?
    && ValidName(Canonical(r.account)) && ValidName(Canonical(r.target))
    && StoredPath(Canonical(r.account), SafeDumpName(r.filename).value) in w.files
  }

  /** Nothing happens unless the form is in order; then the rest is up to LoadDump. */
  lemma RestoreBackupParts(w: World, r: RestoreRequest, s: Schedule)
    ensures var o := RestoreBackup(w, r, s); var w0 := Arrive(w, s, ServerCheck);
            && GameOnly(w, w0)
            && (if Restorable(w, r, s)
                then var file := SafeDumpName(r.filename).value; var path := StoredPath(Canonical(r.account), file);
                     path in w0.files && w0.files[path] == w.files[path] && InStore(path)
                     && o == LoadDump(w0, path, file, Canonical(r.target), r.time, r.listing, s)
                else o.reply.Failed? && o.world == w0)
  {
    CanonicalNames(r.account);
    CanonicalNames(r.target);
    ArriveGameOnly(w, s, ServerCheck, w);
    var file := SafeDumpName(r.filename);
    if file.Some? {
      GeneratedPaths(Canonical(r.account), file.value, 0, 0);
      PathsApart(StoredPath(Canonical(r.account), file.value));
    }
  }

  /** restore_backup succeeds exactly when the form is in order, the copy is made and the command is
      sent; the only load files are then those that could not be deleted and the new one, and that has
      the contents of the backup. Backups and dumps being written are never touched. */
  lemma RestoreBackupFrame(w: World, r: RestoreRequest, s: Schedule)
    ensures var o := RestoreBackup(w, r, s); var temp := TempLoadPath(r.time);
            && (if Restorable(w, r, s) && s(Copy).ok && s(SendCommand).ok
                then o.reply == Restoring(SafeDumpName(r.filename).value, Canonical(r.target)) else o.reply.Failed?)
            && (o.reply.Restoring? ==>
                  && temp in o.world.files
                  && o.world.files[temp] == w.files[StoredPath(Canonical(r.account), o.reply.file)])
            && TempLoads(o.world.files) == (if !Restorable(w, r, s) then TempLoads(w.files)
                                            else if !s(Copy).ok then Survivors(w, r.listing, s)
                                            else if s(SendCommand).ok || !s(UnlinkTemp).ok then Survivors(w, r.listing, s) + {temp}
                                            else Survivors(w, r.listing, s) - {temp})
            && StoreKept(w.files, o.world.files) && TempDumps(w.files) <= TempDumps(o.world.files)
            && SameDatabases(w, o.world)
  {
    RestoreBackupParts(w, r, s);
    var w0 := Arrive(w, s, ServerCheck);
    KeptMeans(w.files, w0.files);
    if Restorable(w, r, s) {
      var file := SafeDumpName(r.filename).value;
      LoadDumpLeaves(w0, StoredPath(Canonical(r.account), file), file, Canonical(r.target), r.time, r.listing, s);
      ListingMeans(r.listing, w.files, w0.files);
      assert Survivors(w0, r.listing, s) == Survivors(w, r.listing, s);
    }
  }

  lemma BackupDatabases(w: World, r: BackupRequest, s: Schedule)
    ensures SameDatabases(w, CreateBackup(w, r, s).world)
  {
    CreateBackupFrame(w, r, s);
  }

  lemma RestoreDatabases(w: World, r: RestoreRequest, s: Schedule)
    ensures SameDatabases(w, RestoreBackup(w, r, s).world)
  {
    RestoreBackupFrame(w, r, s);
  }
}
