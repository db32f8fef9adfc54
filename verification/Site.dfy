/** The whole page: one POST request at a time, with the game server at work before, between and
    during them. */
module Site {
  import opened Accounts
  import opened Backups
  import opened Srp6
  import opened World

  datatype Action =
    | Create(create: CreateRequest)
    | Delete(delete: DeleteRequest)
    | Push(push: PushRequest)
    | UploadFile(upload: UploadRequest)
    | DownloadFile(download: DumpRequest)
    | DeleteFile(unlink: DumpRequest)
    | Backup(backup: BackupRequest)
    | Restore(restore: RestoreRequest)
    | Unknown

  /** The posted token, the action, and what the request will meet. */
  datatype Request = Request(token: string, action: Action, schedule: Schedule)

  ghost function Perform(sha1: Hash, w: World, action: Action, s: Schedule): Outcome {
    match action
    case Create(r) => CreateAccount(sha1, w, r, s)
    case Delete(r) => DeleteAccount(w, r, s)
    case Push(r) => PushLevel(w, r, s)
    case UploadFile(r) => UploadDump(w, r, s)
    case DownloadFile(r) => DownloadDump(w, r)
    case DeleteFile(r) => DeleteDump(w, r, s)
    case Backup(r) => CreateBackup(w, r, s)
    case Restore(r) => RestoreBackup(w, r, s)
    case Unknown => Outcome(w, NothingDone)
  }

  /** A request is served only with the session's token. */
  ghost function Serve(sha1: Hash, session: string, w: World, q: Request): Outcome {
    var w :- Check(w, q.token != "" && session != "" && q.token == session, RequestExpired);
    Perform(sha1, w, q.action, q.schedule)
  }

  /** A sequential run: game-server steps and whole requests, in any order. */
  datatype Event = Game(step: GameStep) | Post(request: Request)

  ghost function Apply(sha1: Hash, session: string, w: World, e: Event): World {
    match e
    case Game(step) => Play(w, step)
    case Post(q) => Serve(sha1, session, w, q).world
  }

  ghost function Run(sha1: Hash, session: string, w: World, events: seq<Event>): World {
    if events == [] then w
    else Apply(sha1, session, Run(sha1, session, w, events[..|events| - 1]), events[|events| - 1])
  }
}
