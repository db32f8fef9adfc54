/** Everything the administration page and the game server share: the logon database, the
    characters database and the files. The game server takes its own steps between any two
    statements of a request, and any statement may fail. */
module World {
  import opened Names
  import opened Options
  import opened Text

  /** A row of `account`; its primary key is the key of the table below. */
  datatype Account = Account(username: string, verifier: string, salt: string)

  /** A row of `characters`. */
  datatype Character = Character(name: string, account: int, level: int, xp: int, online: bool)

  datatype World = World(
    accounts: map<int, Account>,
    realms: set<int>,                     // realmlist
    realmRows: map<(int, int), int>,      // realmcharacters: (realmid, acctid) -> numchars
    characters: map<int, Character>,      // keyed by guid
    files: map<string, string>)           // path -> contents

  /** What the game server does by itself. It creates characters only for existing accounts, at any
      level, as it also loads saved ones; and it writes only the dumps it was asked for. */
  datatype GameStep =
    | CreateCharacter(guid: int, name: string, account: int, level: int, xp: int)
    | DeleteCharacter(guid: int)
    | Login(guid: int)
    | Logout(guid: int)
    | GainLevel(guid: int, level: int, xp: int)
    | WriteDump(dumped: nat, time: nat, contents: string)

  ghost function Play(w: World, step: GameStep): (r: World)
    ensures r.accounts == w.accounts && r.realms == w.realms && r.realmRows == w.realmRows
  {
    match step
    case CreateCharacter(guid, name, account, level, xp) =>
      if guid !in w.characters && account in w.accounts
      then w.(characters := w.characters[guid := Character(name, account, level, xp, false)]) else w
    case DeleteCharacter(guid) => w.(characters := w.characters - {guid})
    case Login(guid) =>
      if guid in w.characters
      then w.(characters := w.characters[guid := w.characters[guid].(online := true)]) else w
    case Logout(guid) =>
      if guid in w.characters
      then w.(characters := w.characters[guid := w.characters[guid].(online := false)]) else w
    case GainLevel(guid, level, xp) =>
      if guid in w.characters && w.characters[guid].online && level >= w.characters[guid].level
      then w.(characters := w.characters[guid := w.characters[guid].(level := level, xp := xp)]) else w
    case WriteDump(guid, time, contents) =>
      w.(files := w.files[TempDumpPath(guid, time) := contents])
  }

  ghost function PlayAll(w: World, steps: seq<GameStep>): (r: World)
    ensures r.accounts == w.accounts && r.realms == w.realms && r.realmRows == w.realmRows
    ensures steps == [] ==> r == w
  {
    if steps == [] then w else Play(PlayAll(w, steps[..|steps| - 1]), steps[|steps| - 1])
  }

  /** The game server keeps every file, and writes none but dumps. */
  ghost predicate FilesKept(before: map<string, string>, after: map<string, string>) {
    && (forall p :: p in before ==> p in after)
    && (forall p :: p in after && !IsTempDump(p) ==> p in before && after[p] == before[p])
  }

  lemma {:induction false} PlayAllKeepsFiles(w: World, steps: seq<GameStep>)
    ensures FilesKept(w.files, PlayAll(w, steps).files)
  {
    if steps != [] {
      PlayAllKeepsFiles(w, steps[..|steps| - 1]);
      var step := steps[|steps| - 1];
      if step.WriteDump? {
        GeneratedPaths("", "", step.dumped, step.time);
      }
    }
  }

  lemma PlayLast(w: World, t: seq<GameStep>, last: GameStep)
    ensures PlayAll(w, t + [last]) == Play(PlayAll(w, t), last)
  {
    assert (t + [last])[..|t|] == t;
  }

  lemma {:induction false} PlayAllAppend(w: World, s: seq<GameStep>, t: seq<GameStep>)
    ensures PlayAll(w, s + t) == PlayAll(PlayAll(w, s), t)
  {
    if t == [] {
      assert s + t == s;
    } else {
      PlayAllAppend(w, s, t[..|t| - 1]);
      assert (s + t)[..|s + t| - 1] == s + t[..|t| - 1];
    }
  }

  // ---- requests as sequences of statements ----

  /** The points of a request between which the game server may run. */
  datatype Point =
    | ServerCheck | Connect | FindAccount | InsertAccount | InsertRealmRows
    | ConnectCharacters | CountCharacters | ReadCharacter | UpdateCharacter
    | Begin | DeleteRealmRows | DeleteAccountRow | Commit
    | MoveUpload | Unlink(path: string) | SendCommand | Poll(i: nat) | Rename
    | Glob | Copy | UnlinkTemp

  /** What happens on arrival at a point: the game server's steps, then success or failure. The
      shipped `realmcharacters` is a MyISAM table, without transactions: a statement on several of its
      rows that fails may have handled the rows of some realms already, and these stay handled. */
  datatype Turn = Turn(steps: seq<GameStep>, ok: bool, partly: set<int> := {})

  type Schedule = Point -> Turn

  /** What the visitor is told. */
  datatype Reply =
    | Created(username: string)
    | Deleted(username: string)
    | Uploaded(file: string)
    | Download(contents: string)
    | DumpDeleted(file: string)
    | NothingDone
    | BackedUp(character: string)
    | Restoring(file: string, target: string)
    | Raised(character: string, oldLevel: int)
    | Failed(failure: Failure)

  datatype Failure =
    | RequestExpired
    | InvalidAccountName | InvalidPassword | GmpMissing | DatabaseUnavailable | NameTaken
    | SystemAccount | NotConfirmed | AccountNotFound | OwnsCharacters
    | NoUpload | UploadFailed | TooLarge | NotUploaded | BadFileName | NotADump | AlreadyExists | NotSaved
    | BackupNotFound | ServerDown | NoCharacterSelected | NotOwned
    | NoDumpAppeared | NotMoved | CommandNotSent | NotCopied
    | Online | AlreadyHigh | NotUpdated

  datatype Outcome = Outcome(world: World, reply: Reply)

  /** A request that is still running, or has thrown. */
  datatype Progress = Running(world: World) | Stopped(outcome: Outcome) {
    predicate IsFailure() { Stopped? }
    function PropagateFailure(): Outcome requires Stopped? { outcome }
    function Extract(): World requires Running? { world }
  }

  ghost function Arrive(w: World, s: Schedule, p: Point): World {
    PlayAll(w, s(p).steps)
  }

  /** A statement that may fail; a database failure is the usual case. */
  ghost function Do(w: World, s: Schedule, p: Point, failure: Failure): Progress {
    var w' := Arrive(w, s, p);
    if s(p).ok then Running(w') else Stopped(Outcome(w', Failed(failure)))
  }

  function Check(w: World, condition: bool, failure: Failure): Progress {
    if condition then Running(w) else Stopped(Outcome(w, Failed(failure)))
  }

  /** The world after the game server alone has run at the first n of the given points. */
  ghost function Passing(w: World, s: Schedule, points: seq<Point>, n: nat): (r: World)
    requires n <= |points|
    decreases n
    ensures r.accounts == w.accounts && r.realms == w.realms && r.realmRows == w.realmRows
  {
    if n == 0 then w else Arrive(Passing(w, s, points, n - 1), s, points[n - 1])
  }

  /** No steps of the game server during the request. */
  ghost predicate Quiet(s: Schedule) {
    forall p :: s(p).steps == []
  }
}
