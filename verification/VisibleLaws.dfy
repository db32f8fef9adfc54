/** What holds in every world that can be seen while a run is under way, also inside a request. */
module VisibleLaws {
  import opened AccountLaws
  import opened Accounts
  import opened Backups
  import opened BackupLaws
  import opened Histories
  import opened HistoryLaws
  import opened Names
  import opened Options
  import opened Site
  import opened SiteLaws
  import opened Srp6
  import opened Text
  import opened World

  // ---- one request ----

  /** One step of the game server, or one write the request is permitted. */
  ghost predicate Changed(c: Call, a: World, b: World) {
    Gentle(c, a, b) || Drops(c, a, b)
  }

  lemma {:induction false} SinceChanges(c: Call, h0: History, h: History, k: nat)
    requires Since(c, h0, h) && |h0| <= k < |h|
    ensures Gentle(c, h[k - 1], h[k])
  {
    if k < |h| - 1 {
      SinceChanges(c, h0, h[..|h| - 1], k);
    }
  }

  /** The history goes on, one change after the other; if it ends with the loss of an account, that is
      the only one. */
  ghost predicate Extends(c: Call, h: History, g: History, dropped: bool) {
    && |g| >= |h| && g[..|h|] == h
    && (forall k :: |h| <= k < |g| ==> Changed(c, g[k - 1], g[k]))
    && (forall k :: |h| <= k < |g| && (dropped ==> k < |g| - 1) ==> Gentle(c, g[k - 1], g[k]))
  }

  lemma SinceExtends(c: Call, h: History, g: History)
    requires Since(c, h, g)
    ensures Extends(c, h, g, false)
  {
    SinceLonger(c, h, g);
    forall k | |h| <= k < |g|
      ensures Gentle(c, g[k - 1], g[k])
    {
      SinceChanges(c, h, g, k);
    }
  }

  lemma DropExtends(c: Call, h: History, f: History, w: World)
    requires Extends(c, h, f, false) && Drops(c, Now(f), w)
    ensures Extends(c, h, f + [w], true)
  {
    var g := f + [w];
    assert g[..|h|] == f[..|h|];
    forall k | |h| <= k < |g|
      ensures Changed(c, g[k - 1], g[k])
      ensures k < |g| - 1 ==> Gentle(c, g[k - 1], g[k])
    {
      if k < |f| {
        assert g[k - 1] == f[k - 1] && g[k] == f[k];
      }
    }
  }

  lemma SteadyExtends(c: Call, h: History, g: History, dropped: bool)
    requires Steady(c, h, g, dropped)
    ensures Extends(c, h, g, dropped)
  {
    if dropped {
      var f := g[..|g| - 1];
      SinceExtends(c, h, f);
      DropExtends(c, h, f, Now(g));
      assert f + [Now(g)] == g;
    } else {
      SinceExtends(c, h, g);
    }
  }

  /** A request only adds to the history, one change after the other, and ends in its final world; only
      its last change can be the loss of an account, and only if it announces that. */
  lemma PerformSeenChanges(sha1: Hash, h: History, action: Action, s: Schedule)
    ensures var g, o := PerformSeen(sha1, h, action, s), Perform(sha1, Now(h), action, s);
            Now(g) == o.world && Extends(CallOf(sha1, action, o), h, g, action.Delete? && o.reply.Deleted?)
  {
    PerformSince(sha1, h, action, s);
    var o := Perform(sha1, Now(h), action, s);
    SteadyExtends(CallOf(sha1, action, o), h, PerformSeen(sha1, h, action, s), action.Delete? && o.reply.Deleted?);
  }

  // ---- one event ----

  /** The change belongs to the event. */
  ghost predicate ChangedBy(sha1: Hash, session: string, w: World, e: Event, a: World, b: World) {
    match e
    case Game(step) => b == Play(a, step)
    case Post(q) => Changed(CallOf(sha1, q.action, Serve(sha1, session, w, q)), a, b)
  }

  lemma ServedSeen(sha1: Hash, session: string, h: History, q: Request)
    ensures var g, o := ServeSeen(sha1, session, h, q), Serve(sha1, session, Now(h), q);
            || (g == h && o.world == Now(h))
            || (g == PerformSeen(sha1, h, q.action, q.schedule) && o == Perform(sha1, Now(h), q.action, q.schedule))
  {
  }

  lemma ApplySeenExtends(sha1: Hash, session: string, h: History, e: Event)
    ensures var g := ApplySeen(sha1, session, h, e);
            && |g| >= |h| && g[..|h|] == h && Now(g) == Apply(sha1, session, Now(h), e)
            && forall k :: |h| <= k < |g| ==> ChangedBy(sha1, session, Now(h), e, g[k - 1], g[k])
  {
    if e.Post? {
      ServedSeen(sha1, session, h, e.request);
      PerformSeenChanges(sha1, h, e.request.action, e.request.schedule);
    }
  }

  // ---- runs ----

  lemma {:induction false} RunSeenEnds(sha1: Hash, session: string, h: History, events: seq<Event>)
    ensures var g := RunSeen(sha1, session, h, events);
            |g| >= |h| && g[..|h|] == h && Now(g) == Run(sha1, session, Now(h), events)
  {
    if events != [] {
      var t, e := events[..|events| - 1], events[|events| - 1];
      RunSeenEnds(sha1, session, h, t);
      var f := RunSeen(sha1, session, h, t);
      ApplySeenExtends(sha1, session, f, e);
      assert ApplySeen(sha1, session, f, e)[..|f|][..|h|] == h;
    }
  }

  /** The change belongs to one of the events of the run. */
  ghost predicate ChangedInRun(sha1: Hash, session: string, w: World, events: seq<Event>, a: World, b: World) {
    exists i :: 0 <= i < |events| && ChangedBy(sha1, session, Run(sha1, session, w, events[..i]), events[i], a, b)
  }

  lemma ChangedEarlier(sha1: Hash, session: string, w: World, events: seq<Event>, a: World, b: World)
    requires events != [] && ChangedInRun(sha1, session, w, events[..|events| - 1], a, b)
    ensures ChangedInRun(sha1, session, w, events, a, b)
  {
    var t := events[..|events| - 1];
    var i :| 0 <= i < |t| && ChangedBy(sha1, session, Run(sha1, session, w, t[..i]), t[i], a, b);
    assert t[..i] == events[..i] && t[i] == events[i];
  }

  lemma ChangedLast(sha1: Hash, session: string, w: World, events: seq<Event>, a: World, b: World)
    requires events != []
    requires ChangedBy(sha1, session, Run(sha1, session, w, events[..|events| - 1]), events[|events| - 1], a, b)
    ensures ChangedInRun(sha1, session, w, events, a, b)
  {
  }

  /** The worlds of a run: they are added to those before it, the last is the one the run ends in, and
      each comes from the one before by one step of the game server or one write permitted to one of
      the run's requests. */
  lemma {:induction false} RunSeenChanges(sha1: Hash, session: string, h: History, events: seq<Event>, k: nat)
    requires |h| <= k < |RunSeen(sha1, session, h, events)|
    ensures var g := RunSeen(sha1, session, h, events);
            && |g| >= |h| && g[..|h|] == h && Now(g) == Run(sha1, session, Now(h), events)
            && ChangedInRun(sha1, session, Now(h), events, g[k - 1], g[k])
  {
    RunSeenEnds(sha1, session, h, events);
    var t, e := events[..|events| - 1], events[|events| - 1];
    RunSeenEnds(sha1, session, h, t);
    var f, g := RunSeen(sha1, session, h, t), RunSeen(sha1, session, h, events);
    ApplySeenExtends(sha1, session, f, e);
    if k < |f| {
      assert g[k] == g[..|f|][k] && g[k - 1] == g[..|f|][k - 1];
      RunSeenChanges(sha1, session, h, t, k);
      ChangedEarlier(sha1, session, Now(h), events, g[k - 1], g[k]);
    } else {
      ChangedLast(sha1, session, Now(h), events, g[k - 1], g[k]);
    }
  }

  // ---- rows ----

  lemma RegisteredUsable(sha1: Hash, r: CreateRequest, id: int, account: Account)
    requires Registers(sha1, r, id, account)
    ensures Usable(sha1, account)
  {
    var username, password := Canonical(r.username), Canonical(r.password);
    RowRoundTrip(sha1, username, password, r.random);
    StoredRowWellFormed(sha1, username, password, r.random);
  }

  lemma AddKeepsRows(sha1: Hash, a: World, id: int, account: Account)
    requires id !in a.accounts && !Taken(a.accounts, account.username) && Usable(sha1, account)
    ensures RowsKept(sha1, a, a.(accounts := a.accounts[id := account]))
  {
  }

  lemma DropKeepsRows(sha1: Hash, a: World, id: int)
    requires forall key :: key in a.realmRows ==> key.1 != id
    ensures RowsKept(sha1, a, a.(accounts := a.accounts - {id}))
  {
  }

  lemma WriteKeepsRows(c: Call, a: World, x: Write)
    requires Permitted(c, a, x)
    ensures RowsKept(c.sha1, a, Written(a, x))
  {
    match x
    case AddAccount(id, account) =>
      RegisteredUsable(c.sha1, c.action.create, id, account);
      AddKeepsRows(c.sha1, a, id, account);
    case DropAccount(id) => DropKeepsRows(c.sha1, a, id);
    case AddRealmRows(id, realms) =>
    case DropRealmRows(id, _) =>
    case _ => SameRows(a, x);
  }

  lemma SameRows(a: World, x: Write)
    requires x.RaiseTo55? || x.SaveFile? || x.DropFile? || x.CopyFile? || x.MoveFile?
    ensures var b := Written(a, x); b.accounts == a.accounts && b.realms == a.realms && b.realmRows == a.realmRows
  {
  }

  lemma ChangedKeepsRows(c: Call, a: World, b: World)
    requires Changed(c, a, b)
    ensures RowsKept(c.sha1, a, b)
  {
    if x :| Permitted(c, a, x) && b == Written(a, x) {
      WriteKeepsRows(c, a, x);
    }
  }

  lemma ChangedByKeepsRows(sha1: Hash, session: string, w: World, e: Event, a: World, b: World)
    requires ChangedBy(sha1, session, w, e, a, b)
    ensures RowsKept(sha1, a, b)
  {
    if e.Post? {
      ChangedKeepsRows(CallOf(sha1, e.request.action, Serve(sha1, session, w, e.request)), a, b);
    }
  }

  lemma ChangedInRunKeepsRows(sha1: Hash, session: string, w: World, events: seq<Event>, a: World, b: World)
    requires ChangedInRun(sha1, session, w, events, a, b)
    ensures RowsKept(sha1, a, b)
  {
    var i :| 0 <= i < |events| && ChangedBy(sha1, session, Run(sha1, session, w, events[..i]), events[i], a, b);
    ChangedByKeepsRows(sha1, session, Run(sha1, session, w, events[..i]), events[i], a, b);
  }

  lemma {:induction false} RowsAlong(sha1: Hash, g: seq<World>, n: nat, k: nat)
    requires n <= k < |g| && forall i :: n < i <= k ==> RowsKept(sha1, g[i - 1], g[i])
    ensures RowsKept(sha1, g[n], g[k])
  {
    if n < k {
      RowsAlong(sha1, g, n, k - 1);
      RowsKeptTrans(sha1, g[n], g[k - 1], g[k]);
    }
  }

  /** The three row invariants hold, each by itself, in every world that can be seen at any point of
      any run, also inside a request. */
  lemma VisibleRowsKept(sha1: Hash, session: string, h: History, events: seq<Event>, k: nat)
    requires |h| - 1 <= k < |RunSeen(sha1, session, h, events)|
    ensures RowsKept(sha1, Now(h), RunSeen(sha1, session, h, events)[k])
  {
    var g := RunSeen(sha1, session, h, events);
    RunSeenEnds(sha1, session, h, events);
    forall i | |h| - 1 < i <= k
      ensures RowsKept(sha1, g[i - 1], g[i])
    {
      RunSeenChanges(sha1, session, h, events, i);
      ChangedInRunKeepsRows(sha1, session, Now(h), events, g[i - 1], g[i]);
    }
    RowsAlong(sha1, g, |h| - 1, k);
    assert g[|h| - 1] == g[..|h|][|h| - 1];
  }

  // ---- owners ----

  /** Only the loss of an account takes an account away, and no write adds a character. */
  lemma WriteKeepsOwners(a: World, x: Write)
    requires !x.DropAccount? && CharactersOwned(a)
    ensures CharactersOwned(Written(a, x))
  {
    var b := Written(a, x);
    assert b.characters.Keys == a.characters.Keys;
    forall guid | guid in b.characters
      ensures b.characters[guid].account in b.accounts
    {
      assert b.characters[guid].account == a.characters[guid].account;
    }
  }

  lemma StepKeepsOwners(a: World, step: GameStep)
    requires CharactersOwned(a)
    ensures CharactersOwned(Play(a, step))
  {
    OneStep(a, step);
    PlayAllKeepsOwners(a, [step]);
  }

  lemma GentleKeepsOwners(c: Call, a: World, b: World)
    requires Gentle(c, a, b) && CharactersOwned(a)
    ensures CharactersOwned(b)
  {
    if step :| b == Play(a, step) {
      StepKeepsOwners(a, step);
    } else {
      var x :| Permitted(c, a, x) && !x.DropAccount? && b == Written(a, x);
      WriteKeepsOwners(a, x);
    }
  }

  /** From the n-th world on, every character has its account. */
  ghost predicate OwnedFrom(h: seq<World>, n: int) {
    forall k :: 0 <= n <= k < |h| ==> CharactersOwned(h[k])
  }

  lemma {:induction false} TrueAlong(p: seq<bool>, n: nat, k: nat)
    requires n <= k < |p| && p[n] && forall i :: n < i <= k && p[i - 1] ==> p[i]
    ensures p[k]
  {
    if n < k {
      TrueAlong(p, n, k - 1);
    }
  }

  lemma OwnedAlong(c: Call, h: History, g: History, dropped: bool, k: nat)
    requires Extends(c, h, g, dropped) && CharactersOwned(Now(h))
    requires |h| <= k < |g| && (dropped ==> k < |g| - 1)
    ensures CharactersOwned(g[k])
  {
    assert g[|h| - 1] == g[..|h|][|h| - 1];
    var p := seq(|g|, i requires 0 <= i < |g| => CharactersOwned(g[i]));
    forall i | |h| - 1 < i <= k && p[i - 1]
      ensures p[i]
    {
      GentleKeepsOwners(c, g[i - 1], g[i]);
    }
    TrueAlong(p, |h| - 1, k);
  }

  lemma GentlePartOwned(sha1: Hash, h: History, action: Action, s: Schedule, k: nat)
    requires |h| <= k < |PerformSeen(sha1, h, action, s)| && CharactersOwned(Now(h))
    requires action.Delete? ==> k < |PerformSeen(sha1, h, action, s)| - 1
    ensures CharactersOwned(PerformSeen(sha1, h, action, s)[k])
  {
    PerformSeenChanges(sha1, h, action, s);
    var o := Perform(sha1, Now(h), action, s);
    OwnedAlong(CallOf(sha1, action, o), h, PerformSeen(sha1, h, action, s), action.Delete? && o.reply.Deleted?, k);
  }

  lemma EndOwned(sha1: Hash, h: History, action: Action, s: Schedule)
    requires action.Delete? && CharactersOwned(Now(h)) && !MakesOrphan(Now(h), action.delete, s)
    ensures CharactersOwned(Now(PerformSeen(sha1, h, action, s)))
  {
    PerformSince(sha1, h, action, s);
    OwnedWithoutOrphans(sha1, Now(h), action, s);
  }

  lemma PerformSeenOwned(sha1: Hash, h: History, action: Action, s: Schedule, k: nat)
    requires |h| <= k < |PerformSeen(sha1, h, action, s)|
    requires CharactersOwned(Now(h)) && (action.Delete? ==> !MakesOrphan(Now(h), action.delete, s))
    ensures CharactersOwned(PerformSeen(sha1, h, action, s)[k])
  {
    if action.Delete? && k == |PerformSeen(sha1, h, action, s)| - 1 {
      EndOwned(sha1, h, action, s);
    } else {
      GentlePartOwned(sha1, h, action, s, k);
    }
  }

  lemma OwnedWithoutOrphans(sha1: Hash, w: World, action: Action, s: Schedule)
    requires action.Delete? && CharactersOwned(w) && !MakesOrphan(w, action.delete, s)
    ensures CharactersOwned(Perform(sha1, w, action, s).world)
  {
    DeleteAccountOrphans(w, action.delete, s);
  }

  lemma ApplySeenOwned(sha1: Hash, session: string, h: History, n: nat, e: Event)
    requires n < |h| && OwnedFrom(h, n) && !Orphans(session, Now(h), e)
    ensures OwnedFrom(ApplySeen(sha1, session, h, e), n)
  {
    ApplySeenExtends(sha1, session, h, e);
    var g := ApplySeen(sha1, session, h, e);
    forall k | n <= k < |g|
      ensures CharactersOwned(g[k])
    {
      if k < |h| {
        assert g[k] == g[..|h|][k];
      } else if e.Post? {
        PerformSeenOwned(sha1, h, e.request.action, e.request.schedule, k);
      } else {
        OneStep(Now(h), e.step);
        PlayAllKeepsOwners(Now(h), [e.step]);
      }
    }
  }

  lemma {:induction false} QuietRunOwned(sha1: Hash, session: string, h: History, events: seq<Event>)
    requires CharactersOwned(Now(h)) && QuietDeletions(sha1, session, Now(h), events)
    ensures OwnedFrom(RunSeen(sha1, session, h, events), |h| - 1)
  {
    if events != [] {
      var t, e := events[..|events| - 1], events[|events| - 1];
      QuietPrefix(sha1, session, Now(h), events);
      QuietRunOwned(sha1, session, h, t);
      RunSeenEnds(sha1, session, h, t);
      ApplySeenOwned(sha1, session, RunSeen(sha1, session, h, t), |h| - 1, e);
    }
  }

  lemma OwnedFromStart(f: History, g: History, n: int)
    requires |f| <= |g| && g[..|f|] == f && OwnedFrom(g, n)
    ensures OwnedFrom(f, n)
  {
    assert forall k :: 0 <= k < |f| ==> f[k] == g[..|f|][k] == g[k];
  }

  lemma LastOwned(sha1: Hash, session: string, h: History, events: seq<Event>)
    requires OwnedFrom(RunSeen(sha1, session, h, events), |h| - 1)
    ensures CharactersOwned(Run(sha1, session, Now(h), events))
  {
    RunSeenEnds(sha1, session, h, events);
  }

  lemma {:induction false} SeenOwnedThroughout(sha1: Hash, session: string, h: History, events: seq<Event>)
    requires OwnedFrom(RunSeen(sha1, session, h, events), |h| - 1)
    ensures OwnedThroughout(sha1, session, Now(h), events)
  {
    LastOwned(sha1, session, h, events);
    if events == [] {
      assert events[..0] == [];
    } else {
      var t, e := events[..|events| - 1], events[|events| - 1];
      var f := RunSeen(sha1, session, h, t);
      ApplySeenExtends(sha1, session, f, e);
      OwnedFromStart(f, RunSeen(sha1, session, h, events), |h| - 1);
      SeenOwnedThroughout(sha1, session, h, t);
      OwnedExtended(sha1, session, Now(h), events);
    }
  }

  /** Every character has its account in every world that can be seen, exactly if no request of the run
      deletes an account while a new character is made for it. */
  lemma VisibleOwners(sha1: Hash, session: string, h: History, events: seq<Event>)
    requires CharactersOwned(Now(h))
    ensures QuietDeletions(sha1, session, Now(h), events) <==> OwnedFrom(RunSeen(sha1, session, h, events), |h| - 1)
  {
    if QuietDeletions(sha1, session, Now(h), events) {
      QuietRunOwned(sha1, session, h, events);
    }
    if OwnedFrom(RunSeen(sha1, session, h, events), |h| - 1) {
      SeenOwnedThroughout(sha1, session, h, events);
      RunKeepsOwners(sha1, session, Now(h), events);
    }
  }

  // ---- the store ----

  lemma WriteKeepsBackup(c: Call, a: World, x: Write, path: string)
    requires Permitted(c, a, x) && InStore(path) && path in a.files && !Hits(c.action, c.reply, path)
    ensures var b := Written(a, x); path in b.files && b.files[path] == a.files[path]
  {
    PathsApart(path);
    match x
    case CopyFile(source, target) => GeneratedPaths("", "", 0, c.action.restore.time);
    case MoveFile(source, target) => GeneratedPaths("", "", c.action.backup.guid, c.action.backup.time);
    case _ =>
  }

  lemma StepKeepsBackup(a: World, step: GameStep, path: string)
    requires InStore(path) && path in a.files
    ensures path in Play(a, step).files && Play(a, step).files[path] == a.files[path]
  {
    PathsApart(path);
    PlayAllKeepsFiles(a, [step]);
    OneStep(a, step);
  }

  lemma ChangedKeepsBackup(c: Call, a: World, b: World, path: string)
    requires Changed(c, a, b) && InStore(path) && path in a.files && !Hits(c.action, c.reply, path)
    ensures path in b.files && b.files[path] == a.files[path]
  {
    if step :| b == Play(a, step) {
      StepKeepsBackup(a, step, path);
    } else {
      var x :| Permitted(c, a, x) && b == Written(a, x);
      WriteKeepsBackup(c, a, x, path);
    }
  }

  lemma ChangedByKeepsBackup(sha1: Hash, session: string, w: World, e: Event, a: World, b: World, path: string)
    requires ChangedBy(sha1, session, w, e, a, b) && InStore(path) && path in a.files
    requires !Touches(sha1, session, w, e, path)
    ensures path in b.files && b.files[path] == a.files[path]
  {
    match e
    case Game(step) => StepKeepsBackup(a, step, path);
    case Post(q) => ChangedKeepsBackup(CallOf(sha1, q.action, Serve(sha1, session, w, q)), a, b, path);
  }

  lemma ChangedInRunKeepsBackup(sha1: Hash, session: string, w: World, events: seq<Event>, a: World, b: World, path: string)
    requires ChangedInRun(sha1, session, w, events, a, b) && InStore(path) && Untouched(sha1, session, w, events, path)
    ensures FileKept(path, a, b)
  {
    var i :| 0 <= i < |events| && ChangedBy(sha1, session, Run(sha1, session, w, events[..i]), events[i], a, b);
    if path in a.files {
      ChangedByKeepsBackup(sha1, session, Run(sha1, session, w, events[..i]), events[i], a, b, path);
    }
  }

  ghost predicate FileKept(path: string, a: World, b: World) {
    path in a.files ==> path in b.files && b.files[path] == a.files[path]
  }

  lemma {:induction false} FileAlong(path: string, g: seq<World>, n: nat, k: nat)
    requires n <= k < |g| && forall i :: n < i <= k ==> FileKept(path, g[i - 1], g[i])
    ensures FileKept(path, g[n], g[k])
  {
    if n < k {
      FileAlong(path, g, n, k - 1);
    }
  }

  /** In every world that can be seen a backup has its contents, if no event of the run deletes it or
      puts a backup at its own path: no upload, restore or database action ever interferes, not even
      while it runs. */
  lemma VisibleBackupKept(sha1: Hash, session: string, h: History, events: seq<Event>, path: string, k: nat)
    requires |h| - 1 <= k < |RunSeen(sha1, session, h, events)|
    requires InStore(path) && path in Now(h).files && Untouched(sha1, session, Now(h), events, path)
    ensures var w := RunSeen(sha1, session, h, events)[k]; path in w.files && w.files[path] == Now(h).files[path]
  {
    var g := RunSeen(sha1, session, h, events);
    RunSeenEnds(sha1, session, h, events);
    forall i | |h| - 1 < i <= k
      ensures FileKept(path, g[i - 1], g[i])
    {
      RunSeenChanges(sha1, session, h, events, i);
      ChangedInRunKeepsBackup(sha1, session, Now(h), events, g[i - 1], g[i], path);
    }
    FileAlong(path, g, |h| - 1, k);
    assert g[|h| - 1] == g[..|h|][|h| - 1];
  }

  // ---- the load files ----

  ghost predicate OneLoadFrom(h: seq<World>, n: int) {
    forall k :: 0 <= n <= k < |h| ==> AtMostOne(TempLoads(h[k].files))
  }

  lemma OneLoadNext(h: History, n: nat, w: World)
    requires OneLoadFrom(h, n) && AtMostOne(TempLoads(w.files))
    ensures OneLoadFrom(h + [w], n)
  {
  }

  lemma StepKeepsLoads(a: World, step: GameStep)
    ensures TempLoads(Play(a, step).files) == TempLoads(a.files)
  {
    PlayAllKeepsFiles(a, [step]);
    OneStep(a, step);
    KeptMeans(a.files, Play(a, step).files);
  }

  lemma {:induction false} WatchedLoads(h: History, n: nat, steps: seq<GameStep>)
    requires n < |h| && OneLoadFrom(h, n)
    ensures var g := Watched(h, steps);
            |g| >= |h| && OneLoadFrom(g, n) && TempLoads(Now(g).files) == TempLoads(Now(h).files)
  {
    if steps != [] {
      WatchedLoads(h, n, steps[..|steps| - 1]);
      var g, step := Watched(h, steps[..|steps| - 1]), steps[|steps| - 1];
      StepKeepsLoads(Now(g), step);
      OneLoadNext(g, n, Play(Now(g), step));
    }
  }

  lemma PassedLoads(h: History, n: nat, s: Schedule, p: Point)
    requires n < |h| && OneLoadFrom(h, n)
    ensures var g := Passed(h, s, p);
            |g| >= |h| && OneLoadFrom(g, n) && TempLoads(Now(g).files) == TempLoads(Now(h).files)
  {
    WatchedLoads(h, n, s(p).steps);
  }

  lemma DroppedLoads(h: History, n: nat, path: string)
    requires n < |h| && OneLoadFrom(h, n)
    ensures var g := Then(h, DropFile(path));
            |g| >= |h| && OneLoadFrom(g, n) && TempLoads(Now(g).files) == TempLoads(Now(h).files) - {path}
  {
    var w := Written(Now(h), DropFile(path));
    assert TempLoads(w.files) == TempLoads(Now(h).files) - {path};
    assert AtMostOne(TempLoads(Now(h).files));
    OneLoadNext(h, n, w);
  }

  lemma {:induction false} CleanupLoads(h: History, n: nat, listing: seq<string>, s: Schedule)
    requires n < |h| && OneLoadFrom(h, n) && forall p :: s(Unlink(p)).ok
    ensures var g := CleanupSeen(h, listing, s);
            && |g| >= |h| && OneLoadFrom(g, n)
            && forall p :: p in TempLoads(Now(g).files) ==> p in TempLoads(Now(h).files) && p !in listing
  {
    if listing != [] {
      var rest, path := listing[..|listing| - 1], listing[|listing| - 1];
      assert listing == rest + [path];
      CleanupLoads(h, n, rest, s);
      var g := CleanupSeen(h, rest, s);
      PassedLoads(g, n, s, Unlink(path));
      DroppedLoads(Passed(g, s, Unlink(path)), n, path);
    }
  }

  lemma CopyDumpLoads(h: History, n: nat, path: string, temp: string, s: Schedule)
    requires n < |h| && OneLoadFrom(h, n) && TempLoads(Now(h).files) == {} && IsTempLoad(temp)
    ensures OneLoadFrom(CopyDumpSeen(h, path, temp, s), n)
  {
    PassedLoads(h, n, s, Copy);
    var h1 := Passed(h, s, Copy);
    if path in Now(h1).files {
      CopiedKeeps(Now(h1), path, temp);
      var h2 := Then(h1, CopyFile(path, temp));
      OneLoadNext(h1, n, Now(h2));
      PassedLoads(h2, n, s, SendCommand);
      var h3 := Passed(h2, s, SendCommand);
      PassedLoads(h3, n, s, UnlinkTemp);
      DroppedLoads(Passed(h3, s, UnlinkTemp), n, temp);
    }
  }

  lemma LoadDumpLoads(h: History, n: nat, path: string, time: nat, listing: seq<string>, s: Schedule)
    requires n < |h| && OneLoadFrom(h, n)
    requires s(Glob).ok && IsListing(listing, Now(h).files) && forall p :: s(Unlink(p)).ok
    ensures OneLoadFrom(LoadDumpSeen(h, path, time, listing, s), n)
  {
    PassedLoads(h, n, s, Glob);
    var h1 := Passed(h, s, Glob);
    ListingMeans(listing, Now(h).files, Now(h1).files);
    CleanupLoads(h1, n, listing, s);
    var h2 := CleanupSeen(h1, listing, s);
    assert TempLoads(Now(h2).files) == {};
    GeneratedPaths("", "", 0, time);
    CopyDumpLoads(h2, n, path, TempLoadPath(time), s);
  }

  lemma RestoreLoads(h: History, n: nat, r: RestoreRequest, s: Schedule)
    requires n < |h| && OneLoadFrom(h, n) && Deletable(Now(h).files, r, s)
    ensures OneLoadFrom(RestoreBackupSeen(h, r, s), n)
  {
    RestoreBackupShape(h, r, s);
    PassedLoads(h, n, s, ServerCheck);
    var h1 := Passed(h, s, ServerCheck);
    ListingMeans(r.listing, Now(h).files, Now(h1).files);
    if SafeDumpName(r.filename).Some? {
      LoadDumpLoads(h1, n, StoredPath(Canonical(r.account), SafeDumpName(r.filename).value), r.time, r.listing, s);
    }
  }

  lemma WriteKeepsLoads(c: Call, a: World, x: Write)
    requires Permitted(c, a, x) && !c.action.Restore?
    ensures TempLoads(Written(a, x).files) == TempLoads(a.files)
  {
    match x
    case SaveFile(path, _) =>
      GeneratedPaths(Canonical(c.action.upload.account), c.reply.file, 0, 0);
      PathsApart(path);
    case DropFile(path) =>
      GeneratedPaths(Canonical(c.action.unlink.account), c.reply.file, 0, 0);
      PathsApart(path);
    case MoveFile(source, target) =>
      var r := c.action.backup;
      GeneratedPaths(Canonical(r.account), BackupName(c.reply.character, r.stamp), r.guid, r.time);
      MovedKeeps(a, source, target);
    case _ =>
  }

  lemma ChangedKeepsLoads(c: Call, a: World, b: World)
    requires Changed(c, a, b) && !c.action.Restore?
    ensures TempLoads(b.files) == TempLoads(a.files)
  {
    if step :| b == Play(a, step) {
      StepKeepsLoads(a, step);
    } else {
      var x :| Permitted(c, a, x) && b == Written(a, x);
      WriteKeepsLoads(c, a, x);
    }
  }

  lemma {:induction false} LoadsAlong(c: Call, h: History, g: History, dropped: bool, k: nat)
    requires Extends(c, h, g, dropped) && !c.action.Restore? && |h| - 1 <= k < |g|
    ensures TempLoads(g[k].files) == TempLoads(Now(h).files)
  {
    if k == |h| - 1 {
      assert g[k] == g[..|h|][k];
    } else {
      LoadsAlong(c, h, g, dropped, k - 1);
      ChangedKeepsLoads(c, g[k - 1], g[k]);
    }
  }

  lemma OneLoadAlong(c: Call, h: History, g: History, dropped: bool, n: nat)
    requires Extends(c, h, g, dropped) && !c.action.Restore? && n < |h| && OneLoadFrom(h, n)
    ensures OneLoadFrom(g, n)
  {
    forall k | n <= k < |g|
      ensures AtMostOne(TempLoads(g[k].files))
    {
      if k < |h| {
        assert g[k] == g[..|h|][k];
      } else {
        LoadsAlong(c, h, g, dropped, k);
      }
    }
  }

  lemma PerformSeenLoads(sha1: Hash, h: History, action: Action, s: Schedule, n: nat)
    requires !action.Restore? && n < |h| && OneLoadFrom(h, n)
    ensures OneLoadFrom(PerformSeen(sha1, h, action, s), n)
  {
    PerformSeenChanges(sha1, h, action, s);
    var o := Perform(sha1, Now(h), action, s);
    OneLoadAlong(CallOf(sha1, action, o), h, PerformSeen(sha1, h, action, s), action.Delete? && o.reply.Deleted?, n);
  }

  lemma RestoreSeenLoads(sha1: Hash, h: History, action: Action, s: Schedule, n: nat)
    requires action.Restore? && Deletable(Now(h).files, action.restore, s) && n < |h| && OneLoadFrom(h, n)
    ensures OneLoadFrom(PerformSeen(sha1, h, action, s), n)
  {
    RestoreLoads(h, n, action.restore, s);
  }

  lemma PostLoads(sha1: Hash, session: string, h: History, n: nat, q: Request)
    requires n < |h| && OneLoadFrom(h, n)
    requires q.action.Restore? ==> Deletable(Now(h).files, q.action.restore, q.schedule)
    ensures OneLoadFrom(ServeSeen(sha1, session, h, q), n)
  {
    ServedSeen(sha1, session, h, q);
    if q.action.Restore? {
      RestoreSeenLoads(sha1, h, q.action, q.schedule, n);
    } else {
      PerformSeenLoads(sha1, h, q.action, q.schedule, n);
    }
  }

  lemma ApplySeenLoads(sha1: Hash, session: string, h: History, n: nat, e: Event)
    requires n < |h| && OneLoadFrom(h, n) && DeletableAt(Now(h), e)
    ensures OneLoadFrom(ApplySeen(sha1, session, h, e), n)
  {
    match e
    case Game(step) =>
      StepKeepsLoads(Now(h), step);
      OneLoadNext(h, n, Play(Now(h), step));
    case Post(q) => PostLoads(sha1, session, h, n, q);
  }

  /** If files can be deleted, at most one `temp_load_*.pdump` exists in every world that can be seen. */
  lemma {:induction false} VisibleOneLoad(sha1: Hash, session: string, h: History, events: seq<Event>)
    requires AtMostOne(TempLoads(Now(h).files))
    requires DeletableThroughout(sha1, session, Now(h), events)
    ensures OneLoadFrom(RunSeen(sha1, session, h, events), |h| - 1)
  {
    if events != [] {
      var t, e := events[..|events| - 1], events[|events| - 1];
      forall i | 0 <= i < |t|
        ensures DeletableAt(Run(sha1, session, Now(h), t[..i]), t[i])
      {
        assert t[..i] == events[..i];
      }
      VisibleOneLoad(sha1, session, h, t);
      RunSeenEnds(sha1, session, h, t);
      ApplySeenLoads(sha1, session, RunSeen(sha1, session, h, t), |h| - 1, e);
    }
  }
}
