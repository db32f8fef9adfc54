/** What the database actions guarantee, for every schedule of failures and game-server steps. */
module AccountLaws {
  import opened Accounts
  import opened Hex
  import opened Options
  import opened Srp6
  import opened Text
  import opened World

  ghost predicate RealmRowsRefer(w: World) {
    forall key :: key in w.realmRows ==> key.1 in w.accounts
  }

  ghost predicate UniqueNames(w: World) {
    forall i, j :: i in w.accounts && j in w.accounts && w.accounts[i].username == w.accounts[j].username ==> i == j
  }

  ghost predicate CharactersOwned(w: World) {
    forall guid :: guid in w.characters ==> w.characters[guid].account in w.accounts
  }

  /** A canonical name with a well-formed row that some admissible password fits. */
  ghost predicate Usable(sha1: Hash, a: Account) {
    && ValidName(a.username) && WellFormed(Row(a.verifier, a.salt))
    && exists password :: ValidName(password) && Authenticates(sha1, a.username, password, Row(a.verifier, a.salt))
  }

  ghost predicate AllUsable(sha1: Hash, w: World) {
    forall id :: id in w.accounts ==> Usable(sha1, w.accounts[id])
  }

  /** Every account is usable, or was there before with the same row. */
  ghost predicate NewUsable(sha1: Hash, w: World, w': World) {
    forall id :: id in w'.accounts ==>
      Usable(sha1, w'.accounts[id]) || (id in w.accounts && w.accounts[id] == w'.accounts[id])
  }

  // ---- create_account ----

  /** Everything up to the second INSERT goes well. */
  ghost predicate ReachesRealmRows(w: World, username: string, id: int, s: Schedule) {
    && s(Connect).ok && s(FindAccount).ok && s(InsertAccount).ok
    && !Taken(w.accounts, username) && id !in w.accounts
  }

  /** The statements add at most one account row, then that account's realm rows; if the second INSERT
      fails, those of the realms it had come to. */
  lemma StoreAccountAdds(w: World, username: string, row: Row, id: int, s: Schedule)
    ensures var o := StoreAccount(w, username, row, id, s);
            && o.world.realms == w.realms
            && o.world.accounts == (if ReachesRealmRows(w, username, id, s)
                                    then w.accounts[id := Account(username, row.verifier, row.salt)] else w.accounts)
            && o.world.realmRows == (if ReachesRealmRows(w, username, id, s)
                                     then NewRealmRows(Handled(w.realms, s(InsertRealmRows)), id) + w.realmRows
                                     else w.realmRows)
            && (if ReachesRealmRows(w, username, id, s) && s(InsertRealmRows).ok
                then o.reply == Created(username) else o.reply.Failed?)
  {
  }

  /** The form fields pass validation. */
  ghost predicate Admissible(r: CreateRequest) {
    ValidName(Canonical(r.username)) && ValidName(Canonical(r.password)) && r.gmpLoaded
  }

  lemma CreateAccountParts(sha1: Hash, w: World, r: CreateRequest, s: Schedule)
    ensures var o := CreateAccount(sha1, w, r, s);
            var username, password := Canonical(r.username), Canonical(r.password);
            if Admissible(r) then o == StoreAccount(w, username, StoredRow(sha1, username, password, r.random), r.id, s)
            else o.reply.Failed? && o.world == w
  {
    CanonicalNames(r.username);
    CanonicalNames(r.password);
  }

  /** Exactly when create_account succeeds, and what it then leaves: one new account that the
      posted password fits, and for it one row per realm with no characters counted. */
  lemma CreateAccountSucceeds(sha1: Hash, w: World, r: CreateRequest, s: Schedule)
    requires RealmRowsRefer(w)
    ensures var o := CreateAccount(sha1, w, r, s);
            var username, password := Canonical(r.username), Canonical(r.password);
            && (o.reply.Created? <==>
                  Admissible(r) && ReachesRealmRows(w, username, r.id, s) && s(InsertRealmRows).ok)
            && (o.reply.Created? ==>
                  && o.reply.username == username
                  && r.id in o.world.accounts && o.world.accounts - {r.id} == w.accounts
                  && o.world.accounts[r.id].username == username
                  && Authenticates(sha1, username, password,
                                   Row(o.world.accounts[r.id].verifier, o.world.accounts[r.id].salt))
                  && (forall realm :: (realm, r.id) in o.world.realmRows <==> realm in w.realms)
                  && (forall realm :: realm in w.realms ==> o.world.realmRows[(realm, r.id)] == 0)
                  && (forall key: (int, int) :: key.1 != r.id ==> (key in o.world.realmRows <==> key in w.realmRows))
                  && (forall key: (int, int) :: key in w.realmRows ==> o.world.realmRows[key] == w.realmRows[key]))
  {
    var username, password := Canonical(r.username), Canonical(r.password);
    var row := StoredRow(sha1, username, password, r.random);
    CreateAccountParts(sha1, w, r, s);
    StoreAccountAdds(w, username, row, r.id, s);
    RowRoundTrip(sha1, username, password, r.random);
    if r.id !in w.accounts {
      NewRowsOnly(w, username, row, r.id);
    }
  }

  lemma NewRowsOnly(w: World, username: string, row: Row, id: int)
    requires RealmRowsRefer(w) && id !in w.accounts
    ensures w.accounts[id := Account(username, row.verifier, row.salt)] - {id} == w.accounts
    ensures var rows := NewRealmRows(w.realms, id) + w.realmRows;
            && (forall realm :: (realm, id) in rows <==> realm in w.realms)
            && (forall realm :: realm in w.realms ==> rows[(realm, id)] == 0)
            && (forall key: (int, int) :: key.1 != id ==> (key in rows <==> key in w.realmRows))
  {
  }

  /** create_account is not atomic. An error leaves the account table changed exactly when only the
      last statement failed; it leaves realm rows exactly when that statement had added some. */
  lemma CreateAccountFails(sha1: Hash, w: World, r: CreateRequest, s: Schedule)
    ensures var o := CreateAccount(sha1, w, r, s);
            var stopped := Admissible(r) && ReachesRealmRows(w, Canonical(r.username), r.id, s) && !s(InsertRealmRows).ok;
            o.reply.Failed? ==>
              && (o.world.accounts != w.accounts <==> stopped)
              && (stopped ==> Taken(o.world.accounts, Canonical(r.username)) && o.world.accounts - {r.id} == w.accounts)
              && (o.world.realmRows != w.realmRows <==>
                    stopped && exists realm :: realm in w.realms && realm in s(InsertRealmRows).partly
                                               && (realm, r.id) !in w.realmRows)
              && (forall key: (int, int) :: key in o.world.realmRows && key !in w.realmRows ==>
                    key.0 in w.realms && key.1 == r.id && o.world.realmRows[key] == 0)
              && (forall key: (int, int) :: key in w.realmRows ==>
                    key in o.world.realmRows && o.world.realmRows[key] == w.realmRows[key])
  {
    var username := Canonical(r.username);
    CreateAccountParts(sha1, w, r, s);
    if Admissible(r) {
      StoreAccountFails(w, username, StoredRow(sha1, username, Canonical(r.password), r.random), r.id, s);
    }
  }

  lemma StoreAccountFails(w: World, username: string, row: Row, id: int, s: Schedule)
    ensures var o := StoreAccount(w, username, row, id, s);
            var stopped := ReachesRealmRows(w, username, id, s) && !s(InsertRealmRows).ok;
            o.reply.Failed? ==>
              && (o.world.accounts != w.accounts <==> stopped)
              && (stopped ==> Taken(o.world.accounts, username) && o.world.accounts - {id} == w.accounts)
              && (o.world.realmRows != w.realmRows <==>
                    stopped && exists realm :: realm in w.realms && realm in s(InsertRealmRows).partly
                                               && (realm, id) !in w.realmRows)
              && (forall key: (int, int) :: key in o.world.realmRows && key !in w.realmRows ==>
                    key.0 in w.realms && key.1 == id && o.world.realmRows[key] == 0)
              && (forall key: (int, int) :: key in w.realmRows ==>
                    key in o.world.realmRows && o.world.realmRows[key] == w.realmRows[key])
  {
    StoreAccountAdds(w, username, row, id, s);
    if ReachesRealmRows(w, username, id, s) && !s(InsertRealmRows).ok {
      var accounts := w.accounts[id := Account(username, row.verifier, row.salt)];
      assert id in accounts && accounts[id].username == username;
      assert accounts - {id} == w.accounts;
      SomeRowsAdded(w, w.realms * s(InsertRealmRows).partly, id);
    }
  }

  lemma SomeRowsAdded(w: World, realms: set<int>, id: int)
    ensures NewRealmRows(realms, id) + w.realmRows != w.realmRows <==>
            exists realm :: realm in realms && (realm, id) !in w.realmRows
  {
    var rows := NewRealmRows(realms, id) + w.realmRows;
    if realm :| realm in realms && (realm, id) !in w.realmRows {
      assert (realm, id) in rows;
    } else {
      assert rows == w.realmRows;
    }
  }

  lemma CreateAccountFailsExample(sha1: Hash, random: Random) returns (w: World, r: CreateRequest, s: Schedule)
    ensures CreateAccount(sha1, w, r, s).reply.Failed? && CreateAccount(sha1, w, r, s).world.accounts != w.accounts
  {
    w := World(map[], {1}, map[], map[], map[]);
    r := CreateRequest("GUEST", "SECRET", true, random, 1);
    s := p => Turn([], p != InsertRealmRows);
    ValidNamesAreCanonical("GUEST");
    ValidNamesAreCanonical("SECRET");
    CreateAccountFails(sha1, w, r, s);
    CreateAccountParts(sha1, w, r, s);
    var row := StoredRow(sha1, "GUEST", "SECRET", random);
    StoreAccountAdds(w, "GUEST", row, 1, s);
  }

  /** As long as the name is taken, every request for it fails and changes no row. */
  lemma RefusedWhileTaken(sha1: Hash, w: World, r: CreateRequest, s: Schedule)
    requires Taken(w.accounts, Canonical(r.username))
    ensures var o := CreateAccount(sha1, w, r, s);
            o.reply.Failed? && o.world.accounts == w.accounts && o.world.realmRows == w.realmRows
  {
    CreateAccountParts(sha1, w, r, s);
    var username := Canonical(r.username);
    StoreAccountAdds(w, username, StoredRow(sha1, username, Canonical(r.password), r.random), r.id, s);
  }

  /** So the half-made account cannot be completed by trying again. */
  lemma RetryRefused(sha1: Hash, w: World, r: CreateRequest, s: Schedule, r': CreateRequest, s': Schedule)
    requires Canonical(r'.username) == Canonical(r.username)
    requires Admissible(r) && ReachesRealmRows(w, Canonical(r.username), r.id, s) && !s(InsertRealmRows).ok
    ensures var half := CreateAccount(sha1, w, r, s).world;
            var o := CreateAccount(sha1, half, r', s');
            && half.accounts != w.accounts
            && o.reply.Failed? && o.world.accounts == half.accounts && o.world.realmRows == half.realmRows
  {
    HalfMade(sha1, w, r, s);
    RefusedWhileTaken(sha1, CreateAccount(sha1, w, r, s).world, r', s');
  }

  lemma HalfMade(sha1: Hash, w: World, r: CreateRequest, s: Schedule)
    requires Admissible(r) && ReachesRealmRows(w, Canonical(r.username), r.id, s) && !s(InsertRealmRows).ok
    ensures var o := CreateAccount(sha1, w, r, s);
            && o.reply.Failed? && o.world.accounts != w.accounts
            && r.id in o.world.accounts && o.world.accounts[r.id].username == Canonical(r.username)
  {
    var username := Canonical(r.username);
    CreateAccountParts(sha1, w, r, s);
    StoreAccountAdds(w, username, StoredRow(sha1, username, Canonical(r.password), r.random), r.id, s);
    assert r.id in CreateAccount(sha1, w, r, s).world.accounts;
  }

  /** The check for the name holds for one request at a time: if a second request for the same name
      passes between the check and the INSERTs of the first, the table itself allowing it, two
      accounts have the name. */
  lemma ConcurrentCreates(w: World, username: string, row: Row, id: int, s: Schedule,
                          row': Row, id': int, s': Schedule)
    requires ReachesRealmRows(w, username, id, s) && s(InsertRealmRows).ok
    requires id' !in w.accounts && id' != id && s'(InsertAccount).ok
    ensures var w1 := StoreAccount(w, username, row, id, s).world;
            var w2 := InsertRows(w1, username, row', id', s').world;
            && w2.accounts.Keys == w.accounts.Keys + {id, id'}
            && w2.accounts[id].username == username && w2.accounts[id'].username == username
            && !UniqueNames(w2)
  {
    StoreAccountAdds(w, username, row, id, s);
    var w2 := InsertRows(StoreAccount(w, username, row, id, s).world, username, row', id', s').world;
    assert id in w2.accounts && id' in w2.accounts;
  }

  /** What it adds keeps every invariant, also when it stops in the middle, and no account that was
      there is touched. */
  lemma CreateAccountKeeps(sha1: Hash, w: World, r: CreateRequest, s: Schedule)
    ensures var w' := CreateAccount(sha1, w, r, s).world;
            && w'.realms == w.realms
            && (RealmRowsRefer(w) ==> RealmRowsRefer(w'))
            && (UniqueNames(w) ==> UniqueNames(w'))
            && NewUsable(sha1, w, w')
            && (forall id :: id in w.accounts ==> id in w'.accounts && w'.accounts[id] == w.accounts[id])
  {
    var username, password := Canonical(r.username), Canonical(r.password);
    var row := StoredRow(sha1, username, password, r.random);
    CreateAccountParts(sha1, w, r, s);
    if Admissible(r) {
      RowRoundTrip(sha1, username, password, r.random);
      StoredRowWellFormed(sha1, username, password, r.random);
      StoreAccountKeeps(sha1, w, username, password, row, r.id, s);
    }
  }

  lemma StoreAccountKeeps(sha1: Hash, w: World, username: string, password: string, row: Row, id: int, s: Schedule)
    requires ValidName(username) && ValidName(password)
    requires WellFormed(row) && Authenticates(sha1, username, password, row)
    ensures var w' := StoreAccount(w, username, row, id, s).world;
            && w'.realms == w.realms
            && (RealmRowsRefer(w) ==> RealmRowsRefer(w'))
            && (UniqueNames(w) ==> UniqueNames(w'))
            && NewUsable(sha1, w, w')
            && (forall i :: i in w.accounts ==> i in w'.accounts && w'.accounts[i] == w.accounts[i])
  {
    StoreAccountAdds(w, username, row, id, s);
    AddedKeeps(sha1, w, StoreAccount(w, username, row, id, s).world, username, password, row, id);
  }

  lemma AddedKeeps(sha1: Hash, w: World, w': World, username: string, password: string, row: Row, id: int)
    requires ValidName(username) && ValidName(password)
    requires WellFormed(row) && Authenticates(sha1, username, password, row)
    requires w'.accounts == w.accounts
             || (id !in w.accounts && !Taken(w.accounts, username)
                 && w'.accounts == w.accounts[id := Account(username, row.verifier, row.salt)])
    requires w'.realmRows == w.realmRows
             || (id in w'.accounts && exists realms :: w'.realmRows == NewRealmRows(realms, id) + w.realmRows)
    ensures RealmRowsRefer(w) ==> RealmRowsRefer(w')
    ensures UniqueNames(w) ==> UniqueNames(w')
    ensures NewUsable(sha1, w, w')
  {
    assert Usable(sha1, Account(username, row.verifier, row.salt));
  }

  // ---- delete_account ----

  const DELETE_POINTS :=
    [Connect, FindAccount, ConnectCharacters, CountCharacters, Begin, DeleteRealmRows, DeleteAccountRow, Commit]

  /** The world as it is when the point with the given number is passed. */
  ghost function At(w: World, s: Schedule, n: nat): World
    requires n <= 8
  {
    Passing(w, s, DELETE_POINTS, n)
  }

  lemma DeleteStages(w: World, s: Schedule)
    ensures At(w, s, 4) == Arrive(Arrive(Arrive(Arrive(w, s, Connect), s, FindAccount), s, ConnectCharacters), s, CountCharacters)
    ensures At(w, s, 8) ==
            Arrive(Arrive(Arrive(Arrive(At(w, s, 4), s, Begin), s, DeleteRealmRows), s, DeleteAccountRow), s, Commit)
    ensures At(w, s, 0) == w
    ensures forall n :: 1 <= n <= 8 ==> At(w, s, n) == Arrive(At(w, s, n - 1), s, DELETE_POINTS[n - 1])
  {
  }

  ghost predicate CommitsWith(s: Schedule) {
    s(Begin).ok && s(DeleteRealmRows).ok && s(DeleteAccountRow).ok && s(Commit).ok
  }

  /** The account and all its realm rows are gone. */
  function WithoutAccount(w: World, id: int): World {
    w.(accounts := w.accounts - {id},
       realmRows := map key | key in w.realmRows && key.1 != id :: w.realmRows[key])
  }

  /** The realm rows when the transaction has failed. */
  ghost function RowsAfterFailure(rows: map<(int, int), int>, id: int, s: Schedule): map<(int, int), int> {
    if s(Begin).ok then RowsLeft(rows, id, s(DeleteRealmRows)) else rows
  }

  /** The game server does not look at realm rows. */
  lemma {:induction false} IgnoresRealmRows(w: World, rows: map<(int, int), int>, steps: seq<GameStep>)
    ensures PlayAll(w.(realmRows := rows), steps) == PlayAll(w, steps).(realmRows := rows)
  {
    if steps != [] {
      IgnoresRealmRows(w, rows, steps[..|steps| - 1]);
    }
  }

  lemma CommitDeletionCases(w: World, username: string, id: int, s: Schedule, rows: map<(int, int), int>) returns (n: nat)
    ensures 6 < n <= 8
    ensures CommitDeletion(At(w, s, 6).(realmRows := rows), username, id, s) ==
            if s(DeleteAccountRow).ok && s(Commit).ok
            then Outcome(At(w, s, 8).(realmRows := rows, accounts := w.accounts - {id}), Deleted(username))
            else Outcome(At(w, s, n).(realmRows := rows), Failed(DatabaseUnavailable))
  {
    n := if !s(DeleteAccountRow).ok then 7 else 8;
    DeleteStages(w, s);
    IgnoresRealmRows(At(w, s, 6), rows, s(DeleteAccountRow).steps);
    IgnoresRealmRows(At(w, s, 7), rows, s(Commit).steps);
  }

  lemma DeleteRowsCases(w: World, username: string, id: int, s: Schedule) returns (n: nat)
    ensures 4 < n <= 8
    ensures DeleteRows(At(w, s, 4), username, id, s) ==
            if CommitsWith(s) then Outcome(WithoutAccount(At(w, s, 8), id), Deleted(username))
            else Outcome(At(w, s, n).(realmRows := RowsAfterFailure(w.realmRows, id, s)), Failed(DatabaseUnavailable))
  {
    DeleteStages(w, s);
    var rows := RowsLeft(w.realmRows, id, s(DeleteRealmRows));
    n := CommitDeletionCases(w, username, id, s, rows);
    if !s(Begin).ok {
      n := 5;
    } else if !s(DeleteRealmRows).ok {
      n := 6;
    } else {
      assert rows == WithoutAccount(At(w, s, 8), id).realmRows;
    }
  }

  /** The account is there and owns no character when they are counted; no statement fails before. */
  ghost predicate Countable(w: World, username: string, s: Schedule) {
    && s(Connect).ok && s(FindAccount).ok && s(ConnectCharacters).ok && s(CountCharacters).ok
    && Taken(w.accounts, username) && !OwnsCharacter(At(w, s, 4), Lookup(w.accounts, username).value)
  }

  lemma RemoveAccountCases(w: World, username: string, s: Schedule) returns (n: nat)
    ensures n <= 8
    ensures var o := RemoveAccount(w, username, s); var id := Lookup(w.accounts, username);
            if !Countable(w, username, s) then o.reply.Failed? && o.world == At(w, s, n)
            else if CommitsWith(s) then o == Outcome(WithoutAccount(At(w, s, 8), id.value), Deleted(username))
            else o == Outcome(At(w, s, n).(realmRows := RowsAfterFailure(w.realmRows, id.value, s)), Failed(DatabaseUnavailable))
  {
    DeleteStages(w, s);
    if !s(Connect).ok {
      n := 1;
    } else if !s(FindAccount).ok || !Taken(w.accounts, username) {
      n := 2;
    } else if !s(ConnectCharacters).ok {
      n := 3;
    } else if !s(CountCharacters).ok || OwnsCharacter(At(w, s, 4), Lookup(w.accounts, username).value) {
      n := 4;
    } else {
      n := DeleteRowsCases(w, username, Lookup(w.accounts, username).value, s);
    }
  }

  /** The form fields name an account that is not protected, twice. */
  ghost predicate Confirmed(r: DeleteRequest) {
    && ValidName(Canonical(r.username)) && Canonical(r.confirmation) == Canonical(r.username)
    && Canonical(r.username) != "ADMIN" && Canonical(r.username) != "AHBOT"
  }

  lemma DeleteAccountParts(w: World, r: DeleteRequest, s: Schedule)
    ensures var o := DeleteAccount(w, r, s);
            if Confirmed(r) then o == RemoveAccount(w, Canonical(r.username), s) else o.reply.Failed? && o.world == w
  {
    CanonicalNames(r.username);
  }

  ghost predicate CanDelete(w: World, r: DeleteRequest, s: Schedule) {
    Confirmed(r) && Countable(w, Canonical(r.username), s)
  }

  /** Every way delete_account can end, with the number of points passed. */
  lemma DeleteAccountCases(w: World, r: DeleteRequest, s: Schedule) returns (n: nat)
    ensures n <= 8
    ensures var o := DeleteAccount(w, r, s); var id := Lookup(w.accounts, Canonical(r.username));
            if !CanDelete(w, r, s) then o.reply.Failed? && o.world == At(w, s, n)
            else if CommitsWith(s)
            then o == Outcome(WithoutAccount(At(w, s, 8), id.value), Deleted(Canonical(r.username)))
            else o == Outcome(At(w, s, n).(realmRows := RowsAfterFailure(w.realmRows, id.value, s)), Failed(DatabaseUnavailable))
  {
    DeleteAccountParts(w, r, s);
    n := RemoveAccountCases(w, Canonical(r.username), s);
    if !Confirmed(r) {
      n := 0;
    }
  }

  /** It succeeds exactly on a confirmed, unprotected, existing name whose account owns no character
      when they are counted, if no statement fails. An error never changes the account table, and
      leaves characters and files to the game server. It changes the realm rows exactly when the
      transaction was begun and the first DELETE removed a row before something failed. */
  lemma DeleteAccountFails(w: World, r: DeleteRequest, s: Schedule) returns (n: nat)
    ensures n <= 8
    ensures var o := DeleteAccount(w, r, s);
            && (o.reply.Deleted? <==> CanDelete(w, r, s) && CommitsWith(s))
            && (!o.reply.Deleted? ==>
                  && o.reply.Failed? && o.world == At(w, s, n).(realmRows := o.world.realmRows)
                  && (o.world.realmRows != w.realmRows <==>
                        && CanDelete(w, r, s) && s(Begin).ok
                        && exists key :: key in w.realmRows && key.1 == Lookup(w.accounts, Canonical(r.username)).value
                                         && (s(DeleteRealmRows).ok || key.0 in s(DeleteRealmRows).partly))
                  && (forall key :: key in o.world.realmRows ==>
                        key in w.realmRows && o.world.realmRows[key] == w.realmRows[key])
                  && (forall key :: key in w.realmRows && key !in o.world.realmRows ==>
                        key.1 == Lookup(w.accounts, Canonical(r.username)).value))
  {
    n := DeleteAccountCases(w, r, s);
    if CanDelete(w, r, s) && s(Begin).ok {
      var id := Lookup(w.accounts, Canonical(r.username)).value;
      RowsLeftExact(w.realmRows, id, s(DeleteRealmRows));
    }
  }

  lemma RowsLeftExact(rows: map<(int, int), int>, id: int, t: Turn)
    ensures RowsLeft(rows, id, t) != rows <==>
            exists key :: key in rows && key.1 == id && (t.ok || key.0 in t.partly)
  {
    if key :| key in rows && key.1 == id && (t.ok || key.0 in t.partly) {
      assert key !in RowsLeft(rows, id, t);
    } else {
      assert RowsLeft(rows, id, t) == rows;
    }
  }

  /** So a failing commit leaves the account without its realm rows. */
  lemma DeleteAccountFailsExample() returns (w: World, r: DeleteRequest, s: Schedule)
    ensures DeleteAccount(w, r, s).reply.Failed?
    ensures DeleteAccount(w, r, s).world == w.(realmRows := map[]) && w.realmRows != map[] && 1 in w.accounts
  {
    w := World(map[1 := Account("GUEST", "", "")], {1}, map[(1, 1) := 0], map[], map[]);
    r := DeleteRequest("GUEST", "GUEST");
    s := p => Turn([], p != Commit);
    ValidNamesAreCanonical("GUEST");
    assert w.accounts[1].username == "GUEST";
    assert Lookup(w.accounts, "GUEST") == Some(1);
    assert (1, 1) in w.realmRows;
    var n := DeleteAccountCases(w, r, s);
    QuietPassing(w, s, 4);
    QuietPassing(w, s, n);
    assert Countable(w, "GUEST", s);
    var kept := RowsLeft(w.realmRows, 1, s(DeleteRealmRows));
    assert forall key :: key in kept ==> key == (1, 1);
    assert kept == map[];
  }

  /** Repeating a failed deletion repairs it: if the game server stays idle, a failed request followed
      by a successful one ends where the successful one alone ends. */
  lemma DeleteRetried(w: World, r: DeleteRequest, s: Schedule, s': Schedule)
    requires DeleteAccount(w, r, s).reply.Failed? && DeleteAccount(w, r, s').reply.Deleted?
    requires Quiet(s) && Quiet(s')
    ensures DeleteAccount(DeleteAccount(w, r, s).world, r, s') == DeleteAccount(w, r, s')
  {
    var n := DeleteAccountCases(w, r, s);
    QuietPassing(w, s, n);
    QuietPassing(w, s', 4);
    QuietPassing(w, s', 8);
    var w1 := DeleteAccount(w, r, s).world;
    QuietPassing(w1, s', 4);
    QuietPassing(w1, s', 8);
    var n1 := DeleteAccountCases(w, r, s');
    var n2 := DeleteAccountCases(w1, r, s');
    var id := Lookup(w.accounts, Canonical(r.username)).value;
    assert WithoutAccount(w1, id).realmRows == WithoutAccount(w, id).realmRows;
  }

  /** A deletion removes the one account of that name with all its realm rows, and nothing else. */
  lemma DeleteAccountRemoves(w: World, r: DeleteRequest, s: Schedule)
    requires UniqueNames(w) && DeleteAccount(w, r, s).reply.Deleted?
    ensures var w' := DeleteAccount(w, r, s).world; var username := Canonical(r.username);
            && Taken(w.accounts, username) && !Taken(w'.accounts, username)
            && (forall id :: id in w.accounts && w.accounts[id].username != username ==>
                  id in w'.accounts && w'.accounts[id] == w.accounts[id])
            && (forall id :: id in w'.accounts ==> id in w.accounts)
            && (forall key: (int, int) :: key in w.realmRows && key.1 in w'.accounts ==>
                  key in w'.realmRows && w'.realmRows[key] == w.realmRows[key])
            && (forall key: (int, int) :: key in w'.realmRows ==>
                  key in w.realmRows && (key.1 in w.accounts ==> key.1 in w'.accounts))
            && w'.characters == At(w, s, 8).characters && w'.files == At(w, s, 8).files
  {
    var n := DeleteAccountCases(w, r, s);
  }

  lemma FewerRowsKeep(sha1: Hash, w: World, w': World)
    requires w'.realms == w.realms
    requires forall id :: id in w'.accounts ==> id in w.accounts && w'.accounts[id] == w.accounts[id]
    requires forall key: (int, int) :: key in w'.realmRows ==>
               key in w.realmRows && (key.1 in w.accounts ==> key.1 in w'.accounts)
    ensures RealmRowsRefer(w) ==> RealmRowsRefer(w')
    ensures UniqueNames(w) ==> UniqueNames(w')
    ensures NewUsable(sha1, w, w')
  {
  }

  /** Every invariant but the ownership of characters is kept, with no condition at all, also by a
      deletion that stops in the middle; protected accounts are never touched. */
  lemma DeleteAccountKeeps(sha1: Hash, w: World, r: DeleteRequest, s: Schedule)
    ensures var w' := DeleteAccount(w, r, s).world;
            && w'.realms == w.realms
            && (RealmRowsRefer(w) ==> RealmRowsRefer(w'))
            && (UniqueNames(w) ==> UniqueNames(w'))
            && NewUsable(sha1, w, w')
            && (forall id :: id in w'.accounts ==> id in w.accounts && w'.accounts[id] == w.accounts[id])
            && (forall id :: id in w.accounts && id !in w'.accounts ==>
                  Confirmed(r) && w.accounts[id].username == Canonical(r.username))
  {
    var n := DeleteAccountCases(w, r, s);
    FewerRowsKeep(sha1, w, DeleteAccount(w, r, s).world);
  }

  lemma {:induction false} PlayAllKeepsOwners(w: World, steps: seq<GameStep>)
    requires CharactersOwned(w)
    ensures CharactersOwned(PlayAll(w, steps))
  {
    if steps != [] {
      PlayAllKeepsOwners(w, steps[..|steps| - 1]);
    }
  }

  lemma {:induction false} AtKeepsOwners(w: World, s: Schedule, n: nat)
    requires n <= 8 && CharactersOwned(w)
    ensures CharactersOwned(At(w, s, n))
  {
    if n > 0 {
      AtKeepsOwners(w, s, n - 1);
      PlayAllKeepsOwners(At(w, s, n - 1), s(DELETE_POINTS[n - 1]).steps);
    }
  }

  // ---- which steps leave an account with a character ----

  /** Step i really creates a character for the account: its guid is new, and no later step deletes
      it. */
  ghost predicate CreatesAt(w: World, steps: seq<GameStep>, id: int, i: nat)
    requires i < |steps|
  {
    && steps[i].CreateCharacter? && steps[i].account == id
    && steps[i].guid !in PlayAll(w, steps[..i]).characters
    && forall j :: i < j < |steps| ==> steps[j] != DeleteCharacter(steps[i].guid)
  }

  lemma CreatesExtend(w: World, steps: seq<GameStep>, last: GameStep, id: int, i: nat)
    requires i < |steps|
    ensures CreatesAt(w, steps + [last], id, i) <==>
            CreatesAt(w, steps, id, i) && last != DeleteCharacter(steps[i].guid)
  {
    assert (steps + [last])[..i] == steps[..i];
    if CreatesAt(w, steps + [last], id, i) {
      assert (steps + [last])[|steps|] == last;
      assert forall j :: i < j < |steps| ==> (steps + [last])[j] == steps[j];
    }
  }

  /** The character with the guid belongs to the account. */
  ghost predicate Owns(w: World, guid: int, id: int) {
    guid in w.characters && w.characters[guid].account == id
  }

  /** Exactly those characters of an account that owned none are there at the end. */
  lemma {:induction false} OwnedExact(w: World, steps: seq<GameStep>, id: int, guid: int)
    requires id in w.accounts && !OwnsCharacter(w, id)
    ensures Owns(PlayAll(w, steps), guid, id) <==>
            exists i :: 0 <= i < |steps| && CreatesAt(w, steps, id, i) && steps[i].guid == guid
  {
    if steps != [] {
      var t, last := steps[..|steps| - 1], steps[|steps| - 1];
      assert steps == t + [last];
      OwnedExact(w, t, id, guid);
      forall i | 0 <= i < |t|
        ensures CreatesAt(w, steps, id, i) <==> CreatesAt(w, t, id, i) && last != DeleteCharacter(t[i].guid)
      {
        CreatesExtend(w, t, last, id, i);
      }
      LastStepOwns(w, t, last, id, guid);
    }
  }

  lemma StepOwns(u: World, last: GameStep, id: int, guid: int)
    requires id in u.accounts
    ensures Owns(Play(u, last), guid, id) <==>
            || (Owns(u, guid, id) && last != DeleteCharacter(guid))
            || (last.CreateCharacter? && last.account == id && last.guid == guid && guid !in u.characters)
  {
  }

  lemma LastStepOwns(w: World, t: seq<GameStep>, last: GameStep, id: int, guid: int)
    requires id in w.accounts
    ensures Owns(PlayAll(w, t + [last]), guid, id) <==>
            || (Owns(PlayAll(w, t), guid, id) && last != DeleteCharacter(guid))
            || (CreatesAt(w, t + [last], id, |t|) && last.guid == guid)
  {
    PlayLast(w, t, last);
    StepOwns(PlayAll(w, t), last, id, guid);
    assert (t + [last])[..|t|] == t;
  }

  /** An account that owned no character owns one after the steps exactly when one of them creates it
      and no later one deletes it. */
  lemma OwnsExact(w: World, steps: seq<GameStep>, id: int)
    requires id in w.accounts && !OwnsCharacter(w, id)
    ensures OwnsCharacter(PlayAll(w, steps), id) <==> exists i :: 0 <= i < |steps| && CreatesAt(w, steps, id, i)
  {
    var w' := PlayAll(w, steps);
    if guid :| guid in w'.characters && w'.characters[guid].account == id {
      OwnedExact(w, steps, id, guid);
    }
    if i :| 0 <= i < |steps| && CreatesAt(w, steps, id, i) {
      OwnedExact(w, steps, id, steps[i].guid);
      assert Owns(w', steps[i].guid, id);
    }
  }

  /** The game server's steps between the count and the commit. */
  function Window(s: Schedule): seq<GameStep> {
    s(Begin).steps + s(DeleteRealmRows).steps + s(DeleteAccountRow).steps + s(Commit).steps
  }

  lemma WindowPlayed(w: World, s: Schedule)
    ensures At(w, s, 8) == PlayAll(At(w, s, 4), Window(s))
  {
    DeleteStages(w, s);
    var a, b, c, d := s(Begin).steps, s(DeleteRealmRows).steps, s(DeleteAccountRow).steps, s(Commit).steps;
    PlayAllAppend(At(w, s, 4), a, b);
    PlayAllAppend(At(w, s, 4), a + b, c);
    PlayAllAppend(At(w, s, 4), a + b + c, d);
  }

  /** The request deletes the account, and a step between its count and its commit creates a new
      character for it that no later step there deletes. */
  ghost predicate MakesOrphan(w: World, r: DeleteRequest, s: Schedule) {
    && CanDelete(w, r, s) && CommitsWith(s)
    && exists i :: 0 <= i < |Window(s)| && CreatesAt(At(w, s, 4), Window(s), Lookup(w.accounts, Canonical(r.username)).value, i)
  }

  /** A deletion orphans a character exactly then. */
  lemma DeleteAccountOrphans(w: World, r: DeleteRequest, s: Schedule)
    requires CharactersOwned(w)
    ensures CharactersOwned(DeleteAccount(w, r, s).world) <==> !MakesOrphan(w, r, s)
  {
    var n := DeleteAccountCases(w, r, s);
    AtKeepsOwners(w, s, n);
    if CanDelete(w, r, s) && CommitsWith(s) {
      OrphansAtCommit(w, r, s);
      WindowPlayed(w, s);
      OwnsExact(At(w, s, 4), Window(s), Lookup(w.accounts, Canonical(r.username)).value);
    }
  }

  lemma OrphansAtCommit(w: World, r: DeleteRequest, s: Schedule)
    requires CharactersOwned(w) && CanDelete(w, r, s) && CommitsWith(s)
    ensures CharactersOwned(DeleteAccount(w, r, s).world) <==>
            !OwnsCharacter(At(w, s, 8), Lookup(w.accounts, Canonical(r.username)).value)
  {
    var n := DeleteAccountCases(w, r, s);
    AtKeepsOwners(w, s, 8);
    var o, id := DeleteAccount(w, r, s), Lookup(w.accounts, Canonical(r.username)).value;
    if OwnsCharacter(At(w, s, 8), id) {
      var guid :| guid in At(w, s, 8).characters && At(w, s, 8).characters[guid].account == id;
      assert guid in o.world.characters && id !in o.world.accounts;
    }
  }

  /** In particular none is orphaned if no step of the window creates a character for the account. */
  lemma DeleteAccountKeepsOwners(w: World, r: DeleteRequest, s: Schedule)
    requires CharactersOwned(w)
    requires var id := Lookup(w.accounts, Canonical(r.username));
             id.Some? ==> forall i :: 0 <= i < |Window(s)| ==>
               !(Window(s)[i].CreateCharacter? && Window(s)[i].account == id.value)
    ensures CharactersOwned(DeleteAccount(w, r, s).world)
  {
    DeleteAccountOrphans(w, r, s);
  }

  /** Only the commit's turn has a step: it creates a character for the account. */
  ghost predicate CreatesAtCommit(s: Schedule, guid: int, name: string, id: int) {
    && (forall p :: s(p).ok && (p != Commit ==> s(p).steps == []))
    && s(Commit).steps == [CreateCharacter(guid, name, id, 1, 0)]
  }

  lemma QuietBefore(w: World, s: Schedule, n: nat)
    requires n <= 7 && forall p :: p != Commit ==> s(p).steps == []
    ensures At(w, s, n) == w
  {
    if n > 0 {
      QuietBefore(w, s, n - 1);
    }
  }

  lemma CommitCreates(w: World, s: Schedule, guid: int, name: string, id: int)
    requires CreatesAtCommit(s, guid, name, id) && id in w.accounts && guid !in w.characters
    ensures At(w, s, 4) == w
    ensures guid in At(w, s, 8).characters && At(w, s, 8).characters[guid].account == id
  {
    QuietBefore(w, s, 4);
    QuietBefore(w, s, 7);
    OneStep(w, CreateCharacter(guid, name, id, 1, 0));
  }

  /** It does happen: one new character just before the commit is enough. */
  lemma OrphanCreated(w: World, r: DeleteRequest, s: Schedule, guid: int, name: string)
    requires Confirmed(r) && Taken(w.accounts, Canonical(r.username)) && guid !in w.characters
    requires !OwnsCharacter(w, Lookup(w.accounts, Canonical(r.username)).value)
    requires CreatesAtCommit(s, guid, name, Lookup(w.accounts, Canonical(r.username)).value)
    ensures DeleteAccount(w, r, s).reply.Deleted? && !CharactersOwned(DeleteAccount(w, r, s).world)
  {
    CommitCreates(w, s, guid, name, Lookup(w.accounts, Canonical(r.username)).value);
    var n := DeleteAccountCases(w, r, s);
    assert guid in DeleteAccount(w, r, s).world.characters;
  }

  lemma OrphanExample() returns (w: World, r: DeleteRequest, s: Schedule)
    ensures CharactersOwned(w) && DeleteAccount(w, r, s).reply.Deleted?
    ensures !CharactersOwned(DeleteAccount(w, r, s).world)
  {
    w := World(map[1 := Account("GUEST", "", "")], {}, map[], map[], map[]);
    r := DeleteRequest("GUEST", "GUEST");
    s := p => Turn(if p == Commit then [CreateCharacter(7, "Thrall", 1, 1, 0)] else [], true);
    ValidNamesAreCanonical("GUEST");
    assert w.accounts[1].username == "GUEST";
    assert Lookup(w.accounts, "GUEST") == Some(1);
    OrphanCreated(w, r, s, 7, "Thrall");
  }

  lemma OneStep(w: World, a: GameStep)
    ensures PlayAll(w, [a]) == Play(w, a)
  {
    assert [a][..0] == [];
  }

  lemma QuietPassing(w: World, s: Schedule, n: nat)
    requires Quiet(s) && n <= 8
    ensures At(w, s, n) == w
  {
    if n > 0 {
      QuietPassing(w, s, n - 1);
    }
  }

  lemma QuietCreate(sha1: Hash, w: World, r: CreateRequest, s: Schedule)
    requires Quiet(s) && CreateAccount(sha1, w, r, s).reply.Created?
    ensures var row := StoredRow(sha1, Canonical(r.username), Canonical(r.password), r.random);
            && r.id !in w.accounts && !Taken(w.accounts, Canonical(r.username))
            && CreateAccount(sha1, w, r, s).world
            == w.(accounts := w.accounts[r.id := Account(Canonical(r.username), row.verifier, row.salt)],
                  realmRows := NewRealmRows(w.realms, r.id) + w.realmRows)
  {
    var username := Canonical(r.username);
    var row := StoredRow(sha1, username, Canonical(r.password), r.random);
    CreateAccountParts(sha1, w, r, s);
    StoreAccountAdds(w, username, row, r.id, s);
    StoreAccountQuiet(w, username, row, r.id, s);
  }

  lemma QuietDelete(w: World, r: DeleteRequest, s: Schedule, id: int)
    requires Quiet(s) && (forall p :: s(p).ok) && Confirmed(r)
    requires Lookup(w.accounts, Canonical(r.username)) == Some(id) && !OwnsCharacter(w, id)
    ensures DeleteAccount(w, r, s) == Outcome(WithoutAccount(w, id), Deleted(Canonical(r.username)))
  {
    QuietPassing(w, s, 4);
    QuietPassing(w, s, 8);
    var n := DeleteAccountCases(w, r, s);
    assert Countable(w, Canonical(r.username), s);
  }

  lemma WithoutAdded(w: World, username: string, row: Row, id: int)
    requires RealmRowsRefer(w) && id !in w.accounts
    ensures WithoutAccount(w.(accounts := w.accounts[id := Account(username, row.verifier, row.salt)],
                              realmRows := NewRealmRows(w.realms, id) + w.realmRows), id) == w
  {
    var rows := NewRealmRows(w.realms, id) + w.realmRows;
    assert (map key | key in rows && key.1 != id :: rows[key]) == w.realmRows;
    assert w.accounts[id := Account(username, row.verifier, row.salt)] - {id} == w.accounts;
  }

  /** Deleting undoes creating: if the game server stays idle, creating an account and deleting it
      leaves both databases exactly as they were. */
  lemma DeleteUndoesCreate(sha1: Hash, w: World, r: CreateRequest, s: Schedule, r': DeleteRequest, s': Schedule)
    requires RealmRowsRefer(w) && CharactersOwned(w)
    requires CreateAccount(sha1, w, r, s).reply.Created?
    requires Confirmed(r') && Canonical(r'.username) == Canonical(r.username)
    requires Quiet(s) && Quiet(s') && forall p :: s'(p).ok
    ensures DeleteAccount(CreateAccount(sha1, w, r, s).world, r', s') == Outcome(w, Deleted(Canonical(r.username)))
  {
    var row := StoredRow(sha1, Canonical(r.username), Canonical(r.password), r.random);
    QuietCreate(sha1, w, r, s);
    var w1 := CreateAccount(sha1, w, r, s).world;
    assert w1.accounts[r.id].username == Canonical(r.username);
    assert Lookup(w1.accounts, Canonical(r.username)) == Some(r.id);
    QuietDelete(w1, r', s', r.id);
    WithoutAdded(w, Canonical(r.username), row, r.id);
  }

  lemma StoreAccountQuiet(w: World, username: string, row: Row, id: int, s: Schedule)
    requires Quiet(s)
    ensures var w' := StoreAccount(w, username, row, id, s).world;
            w' == w.(accounts := w'.accounts, realmRows := w'.realmRows)
  {
  }

  // ---- push_level_55 ----

  const PUSH_POINTS := [Connect, FindAccount, ConnectCharacters, ReadCharacter, UpdateCharacter]

  ghost predicate CanRaise(w: World, username: string, guid: int, s: Schedule) {
    && s(Connect).ok && s(FindAccount).ok && s(ConnectCharacters).ok && s(ReadCharacter).ok && s(UpdateCharacter).ok
    && Taken(w.accounts, username)
    && var id := Lookup(w.accounts, username).value;
       var read, update := Passing(w, s, PUSH_POINTS, 4), Passing(w, s, PUSH_POINTS, 5);
       && Owned(read, guid, id) && !read.characters[guid].online && read.characters[guid].level < 55
       && Affects(update, guid, id)
  }

  lemma PushStages(w: World, s: Schedule)
    ensures Passing(w, s, PUSH_POINTS, 0) == w
    ensures Passing(w, s, PUSH_POINTS, 1) == Arrive(w, s, Connect)
    ensures Passing(w, s, PUSH_POINTS, 2) == Arrive(Passing(w, s, PUSH_POINTS, 1), s, FindAccount)
    ensures Passing(w, s, PUSH_POINTS, 3) == Arrive(Passing(w, s, PUSH_POINTS, 2), s, ConnectCharacters)
    ensures Passing(w, s, PUSH_POINTS, 4) == Arrive(Passing(w, s, PUSH_POINTS, 3), s, ReadCharacter)
    ensures Passing(w, s, PUSH_POINTS, 5) == Arrive(Passing(w, s, PUSH_POINTS, 4), s, UpdateCharacter)
  {
    assert PUSH_POINTS[0] == Connect && PUSH_POINTS[1] == FindAccount && PUSH_POINTS[2] == ConnectCharacters
        && PUSH_POINTS[3] == ReadCharacter && PUSH_POINTS[4] == UpdateCharacter;
  }

  lemma RaiseLevelCases(w: World, username: string, guid: int, s: Schedule) returns (n: nat)
    ensures n <= 5
    ensures var o := RaiseLevel(w, username, guid, s);
            if CanRaise(w, username, guid, s)
            then o.reply.Raised? && o.world == Pushed(Passing(w, s, PUSH_POINTS, 5), guid)
                 && o.reply.oldLevel == Passing(w, s, PUSH_POINTS, 4).characters[guid].level
            else o.reply.Failed? && o.world == Passing(w, s, PUSH_POINTS, n)
  {
    PushStages(w, s);
    var id := Lookup(w.accounts, username);
    var read := Passing(w, s, PUSH_POINTS, 4);
    if !s(Connect).ok {
      n := 1;
    } else if !s(FindAccount).ok || id.None? {
      n := 2;
    } else if !s(ConnectCharacters).ok {
      n := 3;
    } else if !s(ReadCharacter).ok || !Owned(read, guid, id.value) || read.characters[guid].online
              || read.characters[guid].level >= 55 {
      n := 4;
    } else {
      n := 5;
    }
  }

  /** push_level_55, in every interleaving: it changes the world only when it reports success, then
      changes exactly one row, and in that row only level and experience of a character that is
      offline at the UPDATE and belongs to the account. */
  lemma PushLevelFrame(w: World, r: PushRequest, s: Schedule) returns (n: nat)
    ensures n <= 5
    ensures var o := PushLevel(w, r, s); var before := Passing(w, s, PUSH_POINTS, n);
            if o.reply.Raised?
            then && n == 5 && Owned(before, r.guid, Lookup(w.accounts, Canonical(r.account)).value)
                 && !before.characters[r.guid].online
                 && o.world != before && o.world == before.(characters := o.world.characters)
                 && o.world.characters.Keys == before.characters.Keys
                 && (forall guid :: guid in before.characters && guid != r.guid ==>
                       o.world.characters[guid] == before.characters[guid])
                 && o.world.characters[r.guid] == before.characters[r.guid].(level := 55, xp := 0)
            else o.reply.Failed? && o.world == before
  {
    PushStages(w, s);
    if Canonical(r.account) == "" || r.guid == 0 {
      n := 0;
    } else {
      n := RaiseLevelCases(w, Canonical(r.account), r.guid, s);
      if PushLevel(w, r, s).reply.Raised? {
        n := 5;
        var before := Passing(w, s, PUSH_POINTS, 5);
        assert PushLevel(w, r, s).world.characters[r.guid] != before.characters[r.guid];
      }
    }
  }

  /** It succeeds exactly when no statement fails, the name and the character exist, the character is
      offline and below 55 when read, and the UPDATE still finds it offline and changes it. */
  lemma PushLevelSucceeds(w: World, r: PushRequest, s: Schedule)
    ensures PushLevel(w, r, s).reply.Raised? <==>
            Canonical(r.account) != "" && r.guid != 0 && CanRaise(w, Canonical(r.account), r.guid, s)
  {
    if Canonical(r.account) != "" && r.guid != 0 {
      var n := RaiseLevelCases(w, Canonical(r.account), r.guid, s);
    }
  }

  // ---- which steps take a character above a level ----

  /** The step takes the character above the level: it is online and has not passed the new level
      already, or it is only now created. */
  ghost predicate Lifts(u: World, step: GameStep, guid: int, level: int) {
    || (&& step.GainLevel? && step.guid == guid && step.level > level
        && guid in u.characters && u.characters[guid].online && step.level >= u.characters[guid].level)
    || (&& step.CreateCharacter? && step.guid == guid && step.level > level
        && guid !in u.characters && step.account in u.accounts)
  }

  /** Step i takes the character above the level, and no later step deletes it. */
  ghost predicate RisesAt(w: World, steps: seq<GameStep>, guid: int, level: int, i: nat)
    requires i < |steps|
  {
    && Lifts(PlayAll(w, steps[..i]), steps[i], guid, level)
    && forall j :: i < j < |steps| ==> steps[j] != DeleteCharacter(guid)
  }

  lemma RisesExtend(w: World, steps: seq<GameStep>, last: GameStep, guid: int, level: int, i: nat)
    requires i < |steps|
    ensures RisesAt(w, steps + [last], guid, level, i) <==>
            RisesAt(w, steps, guid, level, i) && last != DeleteCharacter(guid)
  {
    assert (steps + [last])[..i] == steps[..i];
    if RisesAt(w, steps + [last], guid, level, i) {
      assert (steps + [last])[|steps|] == last;
      assert forall j :: i < j < |steps| ==> (steps + [last])[j] == steps[j];
    }
  }

  ghost predicate Above(w: World, guid: int, level: int) {
    guid in w.characters && w.characters[guid].level > level
  }

  lemma StepRises(u: World, last: GameStep, guid: int, level: int)
    ensures Above(Play(u, last), guid, level) <==>
            (Above(u, guid, level) && last != DeleteCharacter(guid)) || Lifts(u, last, guid, level)
  {
  }

  lemma LastStepRises(w: World, t: seq<GameStep>, last: GameStep, guid: int, level: int)
    ensures Above(PlayAll(w, t + [last]), guid, level) <==>
            || (Above(PlayAll(w, t), guid, level) && last != DeleteCharacter(guid))
            || RisesAt(w, t + [last], guid, level, |t|)
  {
    PlayLast(w, t, last);
    StepRises(PlayAll(w, t), last, guid, level);
    assert (t + [last])[..|t|] == t;
  }

  /** A character not above the level is above it after the steps exactly when one of them takes it
      there and no later one deletes it. */
  lemma {:induction false} AboveExact(w: World, steps: seq<GameStep>, guid: int, level: int)
    requires !Above(w, guid, level)
    ensures Above(PlayAll(w, steps), guid, level) <==>
            exists i :: 0 <= i < |steps| && RisesAt(w, steps, guid, level, i)
  {
    if steps != [] {
      var t, last := steps[..|steps| - 1], steps[|steps| - 1];
      assert steps == t + [last];
      AboveExact(w, t, guid, level);
      forall i | 0 <= i < |t|
        ensures RisesAt(w, steps, guid, level, i) <==> RisesAt(w, t, guid, level, i) && last != DeleteCharacter(guid)
      {
        RisesExtend(w, t, last, guid, level, i);
      }
      LastStepRises(w, t, last, guid, level);
    }
  }

  /** A success lowers the character's level exactly when a step between the SELECT and the UPDATE
      takes it above 55 and none after that deletes it. With no step there it raises the level. */
  lemma PushLevelLowers(w: World, r: PushRequest, s: Schedule)
    requires PushLevel(w, r, s).reply.Raised?
    ensures var read, update := Passing(w, s, PUSH_POINTS, 4), Passing(w, s, PUSH_POINTS, 5);
            var steps := s(UpdateCharacter).steps;
            && r.guid in read.characters && r.guid in update.characters
            && read.characters[r.guid].level < 55 && !read.characters[r.guid].online
            && PushLevel(w, r, s).reply.oldLevel == read.characters[r.guid].level
            && (PushLevel(w, r, s).world.characters[r.guid].level < update.characters[r.guid].level <==>
                  exists i :: 0 <= i < |steps| && RisesAt(read, steps, r.guid, 55, i))
            && (steps == [] ==>
                  PushLevel(w, r, s).world.characters[r.guid].level > update.characters[r.guid].level)
  {
    PushStages(w, s);
    var n := RaiseLevelCases(w, Canonical(r.account), r.guid, s);
    AboveExact(Passing(w, s, PUSH_POINTS, 4), s(UpdateCharacter).steps, r.guid, 55);
  }

  /** No step gives the character a level above this one. */
  ghost predicate NoneAbove(steps: seq<GameStep>, guid: int, level: int) {
    forall i :: 0 <= i < |steps| ==>
      (steps[i].GainLevel? || steps[i].CreateCharacter?) && steps[i].guid == guid ==> steps[i].level <= level
  }

  /** So no level goes down if the game server raises none above 55 between SELECT and UPDATE. */
  lemma PushLevelRaises(w: World, r: PushRequest, s: Schedule)
    requires PushLevel(w, r, s).reply.Raised? && NoneAbove(s(UpdateCharacter).steps, r.guid, 55)
    ensures var update := Passing(w, s, PUSH_POINTS, 5);
            r.guid in update.characters
            && PushLevel(w, r, s).world.characters[r.guid].level >= update.characters[r.guid].level
  {
    PushLevelLowers(w, r, s);
    PushStages(w, s);
  }

  lemma CanRaiseAmid(w: World, username: string, guid: int, s: Schedule, id: int)
    requires forall p :: s(p).ok && (p != UpdateCharacter ==> s(p).steps == [])
    requires Lookup(w.accounts, username) == Some(id)
    requires Owned(w, guid, id) && !w.characters[guid].online && w.characters[guid].level < 55
    requires Affects(PlayAll(w, s(UpdateCharacter).steps), guid, id)
    ensures Passing(w, s, PUSH_POINTS, 4) == w
    ensures Passing(w, s, PUSH_POINTS, 5) == PlayAll(w, s(UpdateCharacter).steps)
    ensures CanRaise(w, username, guid, s)
  {
    PushStages(w, s);
    QuietPushPassing(w, s);
  }

  /** The request meets these steps at its UPDATE and nothing else. */
  lemma PushAmid(w: World, r: PushRequest, s: Schedule, id: int)
    requires (forall p :: s(p).ok && (p != UpdateCharacter ==> s(p).steps == [])) && Canonical(r.account) != "" && r.guid != 0
    requires Lookup(w.accounts, Canonical(r.account)) == Some(id)
    requires Owned(w, r.guid, id) && !w.characters[r.guid].online && w.characters[r.guid].level < 55
    requires Affects(PlayAll(w, s(UpdateCharacter).steps), r.guid, id)
    ensures Passing(w, s, PUSH_POINTS, 5) == PlayAll(w, s(UpdateCharacter).steps)
    ensures PushLevel(w, r, s).reply == Raised(w.characters[r.guid].name, w.characters[r.guid].level)
    ensures PushLevel(w, r, s).world == Pushed(PlayAll(w, s(UpdateCharacter).steps), r.guid)
  {
    CanRaiseAmid(w, Canonical(r.account), r.guid, s, id);
    var n := RaiseLevelCases(w, Canonical(r.account), r.guid, s);
    RaisedName(w, Canonical(r.account), r.guid, s);
  }

  lemma RaisedName(w: World, username: string, guid: int, s: Schedule)
    requires RaiseLevel(w, username, guid, s).reply.Raised?
    ensures var read := Passing(w, s, PUSH_POINTS, 4);
            guid in read.characters && RaiseLevel(w, username, guid, s).reply.character == read.characters[guid].name
  {
    PushStages(w, s);
  }

  /** Without that condition it does happen: log in, reach level 60 and log out in between. */
  lemma PushLevelLowersExample() returns (w: World, r: PushRequest, s: Schedule)
    ensures PushLevel(w, r, s).reply == Raised("Thrall", 54)
    ensures var update := Passing(w, s, PUSH_POINTS, 5);
            7 in update.characters && update.characters[7].level == 60
            && 7 in PushLevel(w, r, s).world.characters && PushLevel(w, r, s).world.characters[7].level == 55
  {
    w := World(map[1 := Account("GUEST", "", "")], {}, map[], map[7 := Character("Thrall", 1, 54, 0, false)], map[]);
    r := PushRequest("GUEST", 7);
    var played := [Login(7), GainLevel(7, 60, 0), Logout(7)];
    s := p => Turn(if p == UpdateCharacter then played else [], true);
    ValidNamesAreCanonical("GUEST");
    assert w.accounts[1].username == "GUEST";
    assert Lookup(w.accounts, "GUEST") == Some(1);
    ThreeSteps(w, Login(7), GainLevel(7, 60, 0), Logout(7));
    PushAmid(w, r, s, 1);
  }

  lemma QuietPushPassing(w: World, s: Schedule)
    requires forall p :: p != UpdateCharacter ==> s(p).steps == []
    ensures Passing(w, s, PUSH_POINTS, 4) == w
  {
    PushStages(w, s);
  }

  lemma ThreeSteps(w: World, a: GameStep, b: GameStep, c: GameStep)
    ensures PlayAll(w, [a, b, c]) == Play(Play(Play(w, a), b), c)
  {
    assert [a, b, c][..2] == [a, b] && [a, b][..1] == [a];
    OneStep(w, a);
    assert PlayAll(w, [a, b]) == Play(Play(w, a), b);
  }
}
