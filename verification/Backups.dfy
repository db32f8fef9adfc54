/** The actions on the backup store and the server's directory: upload_dump, download_dump,
    delete_dump, create_backup and restore_backup. */
module Backups {
  import opened Accounts
  import opened Names
  import opened Options
  import opened Text
  import opened World

  // ---- upload_dump ----

  /** An entry of `$_FILES`. */
  datatype Upload = Upload(name: string, error: int, size: int, isUploaded: bool, contents: string)

  datatype UploadRequest = UploadRequest(account: string, upload: Option<Upload>)

  const NOTE := "IMPORTANT NOTE:"

  /** The first 512 bytes contain the note every dump starts with. */
  predicate HasNote(contents: string) {
    var header := if |contents| > 512 then contents[..512] else contents;
    exists i :: 0 <= i < |header| && StartsAt(header, i, NOTE)
  }

  predicate StartsAt(s: string, i: nat, part: string) {
    i + |part| <= |s| && s[i..i + |part|] == part
  }

  ghost function UploadDump(w: World, r: UploadRequest, s: Schedule): Outcome {
    var account := Canonical(r.account);
    var w :- Check(w, MatchesName(account), InvalidAccountName);
    var w :- Check(w, r.upload.Some?, NoUpload);
    var upload := r.upload.value;
    var w :- Check(w, upload.error == 0, UploadFailed);
    var w :- Check(w, 1 <= upload.size <= 10 * 1024 * 1024, TooLarge);
    var w :- Check(w, upload.isUploaded, NotUploaded);
    var file := SafeDumpName(upload.name);
    var w :- Check(w, file.Some?, BadFileName);
    var w :- Check(w, HasNote(upload.contents), NotADump);
    SaveUpload(w, StoredPath(account, file.value), file.value, upload.contents, s)
  }

  ghost function SaveUpload(w: World, path: string, file: string, contents: string, s: Schedule): Outcome {
    var w :- Check(w, path !in w.files, AlreadyExists);
    var w :- Do(w, s, MoveUpload, NotSaved);
    Outcome(w.(files := w.files[path := contents]), Uploaded(file))
  }

  // ---- download_dump and delete_dump ----

  datatype DumpRequest = DumpRequest(account: string, filename: string)

  ghost function DownloadDump(w: World, r: DumpRequest): Outcome {
    var account, file := Canonical(r.account), SafeDumpName(r.filename);
    var w :- Check(w, file.Some?, BadFileName);
    var w :- Check(w, MatchesName(account), InvalidAccountName);
    var path := StoredPath(account, file.value);
    var w :- Check(w, path in w.files, BackupNotFound);
    Outcome(w, Download(w.files[path]))
  }

  function Without(files: map<string, string>, path: string): map<string, string> {
    files - {path}
  }

  ghost function RemoveDump(w: World, path: string, file: string, s: Schedule): Outcome {
    if path !in w.files then Outcome(w, NothingDone)
    else
      var w := Arrive(w, s, Unlink(path));
      Outcome(if s(Unlink(path)).ok then w.(files := Without(w.files, path)) else w, DumpDeleted(file))
  }

  /** The result of `unlink` is not looked at: the visitor is told of a deletion either way. */
  ghost function DeleteDump(w: World, r: DumpRequest, s: Schedule): Outcome {
    var account, file := Canonical(r.account), SafeDumpName(r.filename);
    var w :- Check(w, file.Some?, BadFileName);
    var w :- Check(w, MatchesName(account), InvalidAccountName);
    RemoveDump(w, StoredPath(account, file.value), file.value, s)
  }

  // ---- create_backup ----

  /** The form fields and the two readings of the clock: seconds, and minutes as text. */
  datatype BackupRequest = BackupRequest(account: string, guid: int, time: nat, stamp: string)

  const POLLS: nat := 20

  datatype Sighting = Sighting(world: World, found: bool, polls: nat)

  /** The polling loop. `file_exists` looks at the disk, but PHP remembers a file's size once
      `filesize` has read it, until the request ends. */
  ghost function PollFor(w: World, s: Schedule, path: string, i: nat, remembered: Option<nat>): Sighting
    requires i <= POLLS
    decreases POLLS - i, w
  {
    if i == POLLS then Sighting(w, false, POLLS)
    else
      var w := Arrive(w, s, Poll(i));
      if path in w.files then
        var size := if remembered.Some? then remembered.value else |w.files[path]|;
        if size > 50 then Sighting(w, true, i + 1) else PollFor(w, s, path, i + 1, Some(size))
      else PollFor(w, s, path, i + 1, remembered)
  }

  function Moved(files: map<string, string>, source: string, target: string): map<string, string>
    requires source in files
  {
    Without(files, source)[target := files[source]]
  }

  /** Once the character is known: ask the world server for a dump, wait for it, move it. */
  ghost function FetchDump(w: World, account: string, character: string, r: BackupRequest, s: Schedule): Outcome
    requires r.guid > 0
  {
    var w :- Do(w, s, SendCommand, CommandNotSent);
    var path := TempDumpPath(r.guid, r.time);
    var seen := PollFor(w, s, path, 0, None);
    var w :- Check(seen.world, seen.found, NoDumpAppeared);
    MoveDump(w, path, StoredPath(account, BackupName(character, r.stamp)), character, s)
  }

  ghost function MoveDump(w: World, path: string, target: string, character: string, s: Schedule): Outcome {
    var w :- Do(w, s, Rename, NotMoved);
    var w :- Check(w, path in w.files, NotMoved);
    Outcome(w.(files := Moved(w.files, path, target)), BackedUp(character))
  }

  /** Look up the account and its character, then fetch the dump. */
  ghost function SaveCharacter(w: World, account: string, r: BackupRequest, s: Schedule): Outcome
    requires r.guid > 0
  {
    var w :- Do(w, s, Connect, DatabaseUnavailable);
    var w :- Do(w, s, FindAccount, DatabaseUnavailable);
    var id := Lookup(w.accounts, account);
    var w :- Check(w, id.Some? && id.value != 0, AccountNotFound);
    SaveOwned(w, account, id.value, r, s)
  }

  ghost function SaveOwned(w: World, account: string, id: int, r: BackupRequest, s: Schedule): Outcome
    requires r.guid > 0
  {
    var w :- Do(w, s, ConnectCharacters, DatabaseUnavailable);
    var w :- Do(w, s, ReadCharacter, DatabaseUnavailable);
    var w :- Check(w, Owned(w, r.guid, id) && w.characters[r.guid].name !in ["", "0"], NotOwned);
    FetchDump(w, account, w.characters[r.guid].name, r, s)
  }

  ghost function CreateBackup(w: World, r: BackupRequest, s: Schedule): Outcome {
    var w :- Do(w, s, ServerCheck, ServerDown);
    var account := Canonical(r.account);
    var w :- Check(w, MatchesName(account), InvalidAccountName);
    var w :- Check(w, r.guid > 0, NoCharacterSelected);
    SaveCharacter(w, account, r, s)
  }

  // ---- restore_backup ----

  /** The form fields, the clock, and the load files as `glob` lists them. */
  datatype RestoreRequest = RestoreRequest(account: string, filename: string, target: string, time: nat, listing: seq<string>)

  /** Each file of the pattern once. */
  predicate IsListing(listing: seq<string>, files: map<string, string>) {
    && (forall i, j :: 0 <= i < j < |listing| ==> listing[i] != listing[j])
    && (set p | p in listing) == (set p | p in files && IsTempLoad(p))
  }

  /** The cleanup loop over the listing; a file that cannot be deleted is passed over. */
  ghost function Cleanup(w: World, listing: seq<string>, s: Schedule): World {
    if listing == [] then w
    else
      var path := listing[|listing| - 1];
      var w := Arrive(Cleanup(w, listing[..|listing| - 1], s), s, Unlink(path));
      if s(Unlink(path)).ok then w.(files := Without(w.files, path)) else w
  }

  /** Once the backup is found: clear earlier load files, copy it, and have it loaded. */
  ghost function LoadDump(w: World, path: string, file: string, target: string, time: nat,
                          listing: seq<string>, s: Schedule): Outcome {
    var w := Arrive(w, s, Glob);
    var w := if s(Glob).ok && IsListing(listing, w.files) then Cleanup(w, listing, s) else w;
    CopyDump(w, path, file, target, TempLoadPath(time), s)
  }

  ghost function CopyDump(w: World, path: string, file: string, target: string, temp: string, s: Schedule): Outcome {
    var w :- Do(w, s, Copy, NotCopied);
    var w :- Check(w, path in w.files, NotCopied);
    SendLoad(w.(files := w.files[temp := w.files[path]]), file, target, temp, s)
  }

  /** The command to load the copy; the copy is deleted again if it cannot be sent. */
  ghost function SendLoad(w: World, file: string, target: string, temp: string, s: Schedule): Outcome {
    var w := Arrive(w, s, SendCommand);
    if s(SendCommand).ok then Outcome(w, Restoring(file, target))
    else
      var w := Arrive(w, s, UnlinkTemp);
      Outcome(if s(UnlinkTemp).ok then w.(files := Without(w.files, temp)) else w, Failed(CommandNotSent))
  }

  ghost function RestoreBackup(w: World, r: RestoreRequest, s: Schedule): Outcome {
    var w :- Do(w, s, ServerCheck, ServerDown);
    var account, file, target := Canonical(r.account), SafeDumpName(r.filename), Canonical(r.target);
    var w :- Check(w, file.Some?, BadFileName);
    var w :- Check(w, MatchesName(account) && MatchesName(target), InvalidAccountName);
    var path := StoredPath(account, file.value);
    var w :- Check(w, path in w.files, BackupNotFound);
    LoadDump(w, path, file.value, target, r.time, r.listing, s)
  }
}
