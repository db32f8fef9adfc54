/** What other connections see while requests are served: every world, one after the other, with one
    step of the game server or one write of the page between each two. Beside each specification
    function stands the one that records its worlds. */
module Histories {
  import opened Accounts
  import opened Backups
  import opened Names
  import opened Options
  import opened Site
  import opened Srp6
  import opened Text
  import opened World

  /** The worlds so far; the last one is the present. */
  type History = h: seq<World> | h != [] witness [World(map[], {}, map[], map[], map[])]

  function Now(h: History): World {
    h[|h| - 1]
  }

  /** One write of the page, as the database or the file system carries it out. */
  datatype Write =
    | AddAccount(id: int, account: Account)
    | AddRealmRows(id: int, realms: set<int>)
    | DropRealmRows(id: int, turn: Turn)
    | DropAccount(id: int)
    | RaiseTo55(guid: int)
    | SaveFile(path: string, contents: string)
    | DropFile(path: string)
    | CopyFile(source: string, target: string)
    | MoveFile(source: string, target: string)

  function Written(w: World, x: Write): World {
    match x
    case AddAccount(id, account) => w.(accounts := w.accounts[id := account])
    case AddRealmRows(id, realms) => w.(realmRows := NewRealmRows(realms, id) + w.realmRows)
    case DropRealmRows(id, turn) => w.(realmRows := RowsLeft(w.realmRows, id, turn))
    case DropAccount(id) => w.(accounts := w.accounts - {id})
    case RaiseTo55(guid) => if guid in w.characters then Pushed(w, guid) else w
    case SaveFile(path, contents) => w.(files := w.files[path := contents])
    case DropFile(path) => w.(files := Without(w.files, path))
    case CopyFile(source, target) =>
      if source in w.files then w.(files := w.files[target := w.files[source]]) else w
    case MoveFile(source, target) =>
      if source in w.files then w.(files := Moved(w.files, source, target)) else w
  }

  function Then(h: History, x: Write): (r: History)
    ensures Now(r) == Written(Now(h), x)
  {
    h + [Written(Now(h), x)]
  }

  /** The game server's steps, each with the world after it. */
  ghost function Watched(h: History, steps: seq<GameStep>): (r: History)
    ensures Now(r) == PlayAll(Now(h), steps)
  {
    if steps == [] then h
    else
      var g := Watched(h, steps[..|steps| - 1]);
      g + [Play(Now(g), steps[|steps| - 1])]
  }

  ghost function Passed(h: History, s: Schedule, p: Point): (r: History)
    ensures Now(r) == Arrive(Now(h), s, p)
  {
    Watched(h, s(p).steps)
  }

  /** A request that goes on, or has ended. */
  datatype Going = On(h: History) | Over(h: History) {
    predicate IsFailure() { Over? }
    function PropagateFailure(): History requires Over? { h }
    function Extract(): History requires On? { h }
  }

  ghost function Try(h: History, s: Schedule, p: Point): Going {
    if s(p).ok then On(Passed(h, s, p)) else Over(Passed(h, s, p))
  }

  function Provided(h: History, condition: bool): Going {
    if condition then On(h) else Over(h)
  }

  // ---- the database actions ----

  ghost function InsertRowsSeen(h: History, username: string, row: Row, id: int, s: Schedule): History {
    var h :- Try(h, s, InsertAccount);
    var h :- Provided(h, id !in Now(h).accounts);
    var h := Then(h, AddAccount(id, Account(username, row.verifier, row.salt)));
    var h := Passed(h, s, InsertRealmRows);
    Then(h, AddRealmRows(id, Handled(Now(h).realms, s(InsertRealmRows))))
  }

  ghost function StoreAccountSeen(h: History, username: string, row: Row, id: int, s: Schedule): History {
    var h :- Try(h, s, Connect);
    var h :- Try(h, s, FindAccount);
    var h :- Provided(h, !Taken(Now(h).accounts, username));
    InsertRowsSeen(h, username, row, id, s)
  }

  ghost function CreateAccountSeen(sha1: Hash, h: History, r: CreateRequest, s: Schedule): History {
    var username, password := Canonical(r.username), Canonical(r.password);
    if MatchesName(username) && MatchesName(password) && r.gmpLoaded
    then StoreAccountSeen(h, username, StoredRow(sha1, username, password, r.random), r.id, s)
    else h
  }

  ghost function DeleteRowsSeen(h: History, id: int, s: Schedule): History {
    var h :- Try(h, s, Begin);
    var h := Then(Passed(h, s, DeleteRealmRows), DropRealmRows(id, s(DeleteRealmRows)));
    var h :- Provided(h, s(DeleteRealmRows).ok);
    CommitDeletionSeen(h, id, s)
  }

  ghost function CommitDeletionSeen(h: History, id: int, s: Schedule): History {
    var h :- Try(h, s, DeleteAccountRow);
    var h :- Try(h, s, Commit);
    Then(h, DropAccount(id))
  }

  ghost function RemoveAccountSeen(h: History, username: string, s: Schedule): History {
    var h :- Try(h, s, Connect);
    var h :- Try(h, s, FindAccount);
    var id := Lookup(Now(h).accounts, username);
    var h :- Provided(h, id.Some?);
    var h :- Try(h, s, ConnectCharacters);
    var h :- Try(h, s, CountCharacters);
    var h :- Provided(h, !OwnsCharacter(Now(h), id.value));
    DeleteRowsSeen(h, id.value, s)
  }

  ghost function DeleteAccountSeen(h: History, r: DeleteRequest, s: Schedule): History {
    var username := Canonical(r.username);
    if username != "" && MatchesName(username) && username != "ADMIN" && username != "AHBOT"
       && Canonical(r.confirmation) == username
    then RemoveAccountSeen(h, username, s)
    else h
  }

  ghost function RaiseLevelSeen(h: History, username: string, guid: int, s: Schedule): History {
    var h :- Try(h, s, Connect);
    var h :- Try(h, s, FindAccount);
    var id := Lookup(Now(h).accounts, username);
    var h :- Provided(h, id.Some?);
    RaiseOwnedSeen(h, guid, id.value, s)
  }

  ghost function RaiseOwnedSeen(h: History, guid: int, id: int, s: Schedule): History {
    var h :- Try(h, s, ConnectCharacters);
    var h :- Try(h, s, ReadCharacter);
    var h :- Provided(h, Owned(Now(h), guid, id));
    RaiseReadSeen(h, Now(h).characters[guid], guid, id, s)
  }

  ghost function RaiseReadSeen(h: History, read: Character, guid: int, id: int, s: Schedule): History {
    var h :- Provided(h, !read.online && read.level < 55);
    var h :- Try(h, s, UpdateCharacter);
    var h :- Provided(h, Affects(Now(h), guid, id));
    Then(h, RaiseTo55(guid))
  }

  ghost function PushLevelSeen(h: History, r: PushRequest, s: Schedule): History {
    if Canonical(r.account) != "" && r.guid != 0 then RaiseLevelSeen(h, Canonical(r.account), r.guid, s) else h
  }

  // ---- the file actions ----

  ghost function SaveUploadSeen(h: History, path: string, contents: string, s: Schedule): History {
    var h :- Provided(h, path !in Now(h).files);
    var h :- Try(h, s, MoveUpload);
    Then(h, SaveFile(path, contents))
  }

  ghost function UploadDumpSeen(h: History, r: UploadRequest, s: Schedule): History {
    var account := Canonical(r.account);
    var h :- Provided(h, MatchesName(account) && r.upload.Some?);
    var upload := r.upload.value;
    var file := SafeDumpName(upload.name);
    var h :- Provided(h, upload.error == 0 && 1 <= upload.size <= 10 * 1024 * 1024 && upload.isUploaded
                         && file.Some? && HasNote(upload.contents));
    SaveUploadSeen(h, StoredPath(account, file.value), upload.contents, s)
  }

  ghost function RemoveDumpSeen(h: History, path: string, s: Schedule): History {
    var h :- Provided(h, path in Now(h).files);
    var h :- Try(h, s, Unlink(path));
    Then(h, DropFile(path))
  }

  ghost function DeleteDumpSeen(h: History, r: DumpRequest, s: Schedule): History {
    var account, file := Canonical(r.account), SafeDumpName(r.filename);
    if file.Some? && MatchesName(account) then RemoveDumpSeen(h, StoredPath(account, file.value), s) else h
  }

  ghost function PollSeen(h: History, s: Schedule, path: string, i: nat, remembered: Option<nat>): History
    requires i <= POLLS
    decreases POLLS - i, h
  {
    if i == POLLS then h
    else
      var h := Passed(h, s, Poll(i));
      if path in Now(h).files then
        var size := if remembered.Some? then remembered.value else |Now(h).files[path]|;
        if size > 50 then h else PollSeen(h, s, path, i + 1, Some(size))
      else PollSeen(h, s, path, i + 1, remembered)
  }

  ghost function FetchDumpSeen(h: History, account: string, character: string, r: BackupRequest, s: Schedule): History
    requires r.guid > 0
  {
    var h :- Try(h, s, SendCommand);
    var path := TempDumpPath(r.guid, r.time);
    var found := PollFor(Now(h), s, path, 0, None).found;
    var h :- Provided(PollSeen(h, s, path, 0, None), found);
    MoveDumpSeen(h, path, StoredPath(account, BackupName(character, r.stamp)), s)
  }

  ghost function MoveDumpSeen(h: History, path: string, target: string, s: Schedule): History {
    var h :- Try(h, s, Rename);
    var h :- Provided(h, path in Now(h).files);
    Then(h, MoveFile(path, target))
  }

  ghost function SaveCharacterSeen(h: History, account: string, r: BackupRequest, s: Schedule): History
    requires r.guid > 0
  {
    var h :- Try(h, s, Connect);
    var h :- Try(h, s, FindAccount);
    var id := Lookup(Now(h).accounts, account);
    var h :- Provided(h, id.Some? && id.value != 0);
    SaveOwnedSeen(h, account, id.value, r, s)
  }

  ghost function SaveOwnedSeen(h: History, account: string, id: int, r: BackupRequest, s: Schedule): History
    requires r.guid > 0
  {
    var h :- Try(h, s, ConnectCharacters);
    var h :- Try(h, s, ReadCharacter);
    var h :- Provided(h, Owned(Now(h), r.guid, id) && Now(h).characters[r.guid].name !in ["", "0"]);
    FetchDumpSeen(h, account, Now(h).characters[r.guid].name, r, s)
  }

  ghost function CreateBackupSeen(h: History, r: BackupRequest, s: Schedule): History {
    var h :- Try(h, s, ServerCheck);
    var h :- Provided(h, MatchesName(Canonical(r.account)) && r.guid > 0);
    SaveCharacterSeen(h, Canonical(r.account), r, s)
  }

  ghost function CleanupSeen(h: History, listing: seq<string>, s: Schedule): History {
    if listing == [] then h
    else
      var path := listing[|listing| - 1];
      var h := Passed(CleanupSeen(h, listing[..|listing| - 1], s), s, Unlink(path));
      if s(Unlink(path)).ok then Then(h, DropFile(path)) else h
  }

  ghost function LoadDumpSeen(h: History, path: string, time: nat, listing: seq<string>, s: Schedule): History {
    var h := Passed(h, s, Glob);
    var h := if s(Glob).ok && IsListing(listing, Now(h).files) then CleanupSeen(h, listing, s) else h;
    CopyDumpSeen(h, path, TempLoadPath(time), s)
  }

  ghost function CopyDumpSeen(h: History, path: string, temp: string, s: Schedule): History {
    var h :- Try(h, s, Copy);
    var h :- Provided(h, path in Now(h).files);
    SendLoadSeen(Then(h, CopyFile(path, temp)), temp, s)
  }

  ghost function SendLoadSeen(h: History, temp: string, s: Schedule): History {
    var h := Passed(h, s, SendCommand);
    if s(SendCommand).ok then h
    else
      var h :- Try(h, s, UnlinkTemp);
      Then(h, DropFile(temp))
  }

  ghost function RestoreBackupSeen(h: History, r: RestoreRequest, s: Schedule): History {
    var h :- Try(h, s, ServerCheck);
    var account, file := Canonical(r.account), SafeDumpName(r.filename);
    var h :- Provided(h, file.Some? && MatchesName(account) && MatchesName(Canonical(r.target)));
    var path := StoredPath(account, file.value);
    var h :- Provided(h, path in Now(h).files);
    LoadDumpSeen(h, path, r.time, r.listing, s)
  }

  // ---- requests and runs ----

  ghost function PerformSeen(sha1: Hash, h: History, action: Action, s: Schedule): History {
    match action
    case Create(r) => CreateAccountSeen(sha1, h, r, s)
    case Delete(r) => DeleteAccountSeen(h, r, s)
    case Push(r) => PushLevelSeen(h, r, s)
    case UploadFile(r) => UploadDumpSeen(h, r, s)
    case DownloadFile(_) => h
    case DeleteFile(r) => DeleteDumpSeen(h, r, s)
    case Backup(r) => CreateBackupSeen(h, r, s)
    case Restore(r) => RestoreBackupSeen(h, r, s)
    case Unknown => h
  }

  ghost function ServeSeen(sha1: Hash, session: string, h: History, q: Request): History {
    if q.token != "" && session != "" && q.token == session then PerformSeen(sha1, h, q.action, q.schedule) else h
  }

  ghost function ApplySeen(sha1: Hash, session: string, h: History, e: Event): History {
    match e
    case Game(step) => h + [Play(Now(h), step)]
    case Post(q) => ServeSeen(sha1, session, h, q)
  }

  /** Every world of a run, from the one it starts in. */
  ghost function RunSeen(sha1: Hash, session: string, h: History, events: seq<Event>): History {
    if events == [] then h
    else ApplySeen(sha1, session, RunSeen(sha1, session, h, events[..|events| - 1]), events[|events| - 1])
  }
}
