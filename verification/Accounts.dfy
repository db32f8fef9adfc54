/** The actions on the databases: create_account, delete_account and push_level_55. Each is a
    sequence of statements; at every one the game server may have run and the statement may fail. */
module Accounts {
  import opened Options
  import opened Srp6
  import opened Text
  import opened World

  predicate Taken(accounts: map<int, Account>, username: string) {
    exists id :: id in accounts && accounts[id].username == username
  }

  /** `SELECT id FROM account WHERE username = ... LIMIT 1`: some matching row. */
  ghost function Lookup(accounts: map<int, Account>, username: string): (r: Option<int>)
    ensures r.Some? ==> r.value in accounts && accounts[r.value].username == username
    ensures r.None? <==> !Taken(accounts, username)
  {
    if Taken(accounts, username)
    then var id :| id in accounts && accounts[id].username == username; Some(id)
    else None
  }

  // ---- create_account ----

  /** The form fields, the 32 random bytes, and the key the database will hand out. */
  datatype CreateRequest = CreateRequest(username: string, password: string, gmpLoaded: bool, random: Random, id: int)

  /** `SELECT id, :account, 0 FROM realmlist`. */
  function NewRealmRows(realms: set<int>, id: int): (rows: map<(int, int), int>)
    ensures forall realm, acct :: (realm, acct) in rows <==> realm in realms && acct == id
    ensures forall key :: key in rows ==> rows[key] == 0
  {
    map realm | realm in realms :: (realm, id) := 0
  }

  /** The realms whose rows the INSERT of a turn adds. */
  function Handled(realms: set<int>, t: Turn): set<int> {
    if t.ok then realms else realms * t.partly
  }

  /** The two INSERTs. They are not in a transaction. */
  ghost function InsertRows(w: World, username: string, row: Row, id: int, s: Schedule): Outcome {
    var w :- Do(w, s, InsertAccount, DatabaseUnavailable);
    var w :- Check(w, id !in w.accounts, DatabaseUnavailable);
    var w := w.(accounts := w.accounts[id := Account(username, row.verifier, row.salt)]);
    var w := Arrive(w, s, InsertRealmRows);
    // INSERT IGNORE: rows already there are kept
    var w := w.(realmRows := NewRealmRows(Handled(w.realms, s(InsertRealmRows)), id) + w.realmRows);
    Outcome(w, if s(InsertRealmRows).ok then Created(username) else Failed(DatabaseUnavailable))
  }

  /** The statements on the logon database. */
  ghost function StoreAccount(w: World, username: string, row: Row, id: int, s: Schedule): Outcome {
    var w :- Do(w, s, Connect, DatabaseUnavailable);
    var w :- Do(w, s, FindAccount, DatabaseUnavailable);
    var w :- Check(w, !Taken(w.accounts, username), NameTaken);
    InsertRows(w, username, row, id, s)
  }

  ghost function CreateAccount(sha1: Hash, w: World, r: CreateRequest, s: Schedule): Outcome {
    var username, password := Canonical(r.username), Canonical(r.password);
    var w :- Check(w, MatchesName(username), InvalidAccountName);
    var w :- Check(w, MatchesName(password), InvalidPassword);
    var w :- Check(w, r.gmpLoaded, GmpMissing);
    StoreAccount(w, username, StoredRow(sha1, username, password, r.random), r.id, s)
  }

  // ---- delete_account ----

  datatype DeleteRequest = DeleteRequest(username: string, confirmation: string)

  predicate OwnsCharacter(w: World, id: int) {
    exists guid :: guid in w.characters && w.characters[guid].account == id
  }

  /** The realm rows the DELETE of a turn leaves. */
  function RowsLeft(rows: map<(int, int), int>, id: int, t: Turn): map<(int, int), int> {
    map key | key in rows && !(key.1 == id && (t.ok || key.0 in t.partly)) :: rows[key]
  }

  /** The transaction. It covers `account` only: what the first DELETE does to `realmcharacters` takes
      effect at once and is not rolled back. */
  ghost function DeleteRows(w: World, username: string, id: int, s: Schedule): Outcome {
    var w :- Do(w, s, Begin, DatabaseUnavailable);
    var w := Arrive(w, s, DeleteRealmRows);
    var w := w.(realmRows := RowsLeft(w.realmRows, id, s(DeleteRealmRows)));
    var w :- Check(w, s(DeleteRealmRows).ok, DatabaseUnavailable);
    CommitDeletion(w, username, id, s)
  }

  ghost function CommitDeletion(w: World, username: string, id: int, s: Schedule): Outcome {
    var w :- Do(w, s, DeleteAccountRow, DatabaseUnavailable);
    var w :- Do(w, s, Commit, DatabaseUnavailable);
    Outcome(w.(accounts := w.accounts - {id}), Deleted(username))
  }

  /** The statements on both databases. */
  ghost function RemoveAccount(w: World, username: string, s: Schedule): Outcome {
    var w :- Do(w, s, Connect, DatabaseUnavailable);
    var w :- Do(w, s, FindAccount, DatabaseUnavailable);
    var id := Lookup(w.accounts, username);
    var w :- Check(w, id.Some?, AccountNotFound);
    var w :- Do(w, s, ConnectCharacters, DatabaseUnavailable);
    var w :- Do(w, s, CountCharacters, DatabaseUnavailable);
    var w :- Check(w, !OwnsCharacter(w, id.value), OwnsCharacters);
    DeleteRows(w, username, id.value, s)
  }

  ghost function DeleteAccount(w: World, r: DeleteRequest, s: Schedule): Outcome {
    var username, confirmation := Canonical(r.username), Canonical(r.confirmation);
    var w :- Check(w, username != "" && MatchesName(username), InvalidAccountName);
    var w :- Check(w, username != "ADMIN" && username != "AHBOT", SystemAccount);
    var w :- Check(w, confirmation == username, NotConfirmed);
    RemoveAccount(w, username, s)
  }

  // ---- push_level_55 ----

  datatype PushRequest = PushRequest(account: string, guid: int)

  predicate Owned(w: World, guid: int, id: int) {
    guid in w.characters && w.characters[guid].account == id
  }

  /** Whether `UPDATE ... SET level = 55, xp = 0 WHERE guid AND account AND online = 0` counts the
      row as affected: MySQL counts the rows it changes. */
  predicate Affects(w: World, guid: int, id: int) {
    && Owned(w, guid, id) && !w.characters[guid].online
    && (w.characters[guid].level != 55 || w.characters[guid].xp != 0)
  }

  /** The statements on both databases. */
  ghost function RaiseLevel(w: World, username: string, guid: int, s: Schedule): Outcome {
    var w :- Do(w, s, Connect, DatabaseUnavailable);
    var w :- Do(w, s, FindAccount, DatabaseUnavailable);
    var id := Lookup(w.accounts, username);
    var w :- Check(w, id.Some?, AccountNotFound);
    RaiseOwned(w, guid, id.value, s)
  }

  /** Those on the characters database. */
  ghost function RaiseOwned(w: World, guid: int, id: int, s: Schedule): Outcome {
    var w :- Do(w, s, ConnectCharacters, DatabaseUnavailable);
    var w :- Do(w, s, ReadCharacter, DatabaseUnavailable);
    var w :- Check(w, Owned(w, guid, id), NotOwned);
    RaiseRead(w, w.characters[guid], guid, id, s)
  }

  /** The checks on the row as it was read, and the UPDATE. */
  ghost function RaiseRead(w: World, seen: Character, guid: int, id: int, s: Schedule): Outcome {
    var w :- Check(w, !seen.online, Online);
    var w :- Check(w, seen.level < 55, AlreadyHigh);
    var w :- Do(w, s, UpdateCharacter, DatabaseUnavailable);
    var w :- Check(w, Affects(w, guid, id), NotUpdated);
    Outcome(Pushed(w, guid), Raised(seen.name, seen.level))
  }

  function Pushed(w: World, guid: int): World
    requires guid in w.characters
  {
    w.(characters := w.characters[guid := w.characters[guid].(level := 55, xp := 0)])
  }

  ghost function PushLevel(w: World, r: PushRequest, s: Schedule): Outcome {
    var username := Canonical(r.account);
    var w :- Check(w, username != "" && r.guid != 0, NoCharacterSelected);
    RaiseLevel(w, username, r.guid, s)
  }
}
