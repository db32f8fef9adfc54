/** File names and paths: how posted and generated names are made safe, and where the files they
    name live. Paths are relative to the repack's root; `DIRECTORY_SEPARATOR` is the backslash. */
module Names {
  import opened Numerals
  import opened Options
  import opened Text

  // ---- basename and pathinfo on Windows ----

  predicate IsSlash(c: char) {
    c == '/' || c == '\\'
  }

  /** The text ends in the colon of a one-character drive prefix. */
  predicate EndsInDrive(s: string) {
    && |s| >= 2 && s[|s| - 1] == ':' && !IsSlash(s[|s| - 2])
    && (|s| == 2 || IsSlash(s[|s| - 3]) || EndsInDrive(s[..|s| - 2]))
  }

  predicate EndsSegment(s: string) {
    s != "" && (IsSlash(s[|s| - 1]) || EndsInDrive(s))
  }

  function StripTrailing(s: string): string {
    if EndsSegment(s) then StripTrailing(s[..|s| - 1]) else s
  }

  function LastSegment(s: string): string {
    if s == "" || EndsSegment(s) then "" else LastSegment(s[..|s| - 1]) + [s[|s| - 1]]
  }

  /** `basename`. */
  function BaseName(s: string): string {
    LastSegment(StripTrailing(s))
  }

  function BeforeLastDot(s: string): Option<string> {
    if s == "" then None
    else if s[|s| - 1] == '.' then Some(s[..|s| - 1])
    else BeforeLastDot(s[..|s| - 1])
  }

  /** `pathinfo(s, PATHINFO_FILENAME)`. */
  function Stem(s: string): string {
    var name := BaseName(s);
    match BeforeLastDot(name) case None => name case Some(t) => t
  }

  // ---- safeDumpName ----

  predicate IsSafe(c: char) {
    'A' <= c <= 'Z' || 'a' <= c <= 'z' || '0' <= c <= '9' || c == '_' || c == '-'
  }

  predicate AllSafe(s: string) {
    forall i :: 0 <= i < |s| ==> IsSafe(s[i])
  }

  function Clean(s: string): (r: string)
    ensures |r| == |s| && AllSafe(r)
    ensures AllSafe(s) ==> r == s
  {
    seq(|s|, i requires 0 <= i < |s| => if IsSafe(s[i]) then s[i] else '_')
  }

  const SUFFIX := ".pdump"

  function SafeDumpName(filename: string): Option<string> {
    var base := Clean(Stem(BaseName(filename)));
    if base == "" || |base| > 48 then None else Some(base + SUFFIX)
  }

  predicate Sanitised(file: string) {
    && |file| >= 6 && file[|file| - 6..] == SUFFIX
    && 1 <= |file| - 6 <= 48 && AllSafe(file[..|file| - 6])
  }

  predicate OneSegment(s: string) {
    forall i :: 0 <= i < |s| ==> !IsSlash(s[i]) && s[i] != ':'
  }

  lemma {:induction false} LastSegmentWhole(s: string)
    requires OneSegment(s)
    ensures LastSegment(s) == s && StripTrailing(s) == s
  {
    if s != "" {
      LastSegmentWhole(s[..|s| - 1]);
      assert s == s[..|s| - 1] + [s[|s| - 1]];
    }
  }

  lemma {:induction false} LastDot(stem: string, extension: string)
    requires '.' !in extension
    ensures BeforeLastDot(stem + "." + extension) == Some(stem)
  {
    var s := stem + "." + extension;
    if extension == "" {
      assert s[..|s| - 1] == stem;
    } else {
      LastDot(stem, extension[..|extension| - 1]);
      assert s[..|s| - 1] == stem + "." + extension[..|extension| - 1];
    }
  }

  lemma SafeNameKept(base: string)
    requires AllSafe(base)
    ensures Clean(Stem(BaseName(base + SUFFIX))) == base
  {
    LastSegmentWhole(base + SUFFIX);
    assert base + SUFFIX == base + "." + "pdump";
    LastDot(base, "pdump");
  }

  /** Every name it returns is sanitised, and its fixed points are exactly the sanitised names. */
  lemma SafeDumpNameFixed(file: string)
    ensures SafeDumpName(file).Some? ==> Sanitised(SafeDumpName(file).value)
    ensures SafeDumpName(file) == Some(file) <==> Sanitised(file)
  {
    if SafeDumpName(file).Some? {
      var base := Clean(Stem(BaseName(file)));
      var name := base + SUFFIX;
      assert name[..|name| - 6] == base && name[|name| - 6..] == SUFFIX;
    }
    if Sanitised(file) {
      var base := file[..|file| - 6];
      assert file == base + SUFFIX;
      SafeNameKept(base);
    }
  }

  lemma SafeDumpNameIdempotent(file: string)
    requires SafeDumpName(file).Some?
    ensures SafeDumpName(SafeDumpName(file).value) == SafeDumpName(file)
  {
    SafeDumpNameFixed(file);
    SafeDumpNameFixed(SafeDumpName(file).value);
  }

  // ---- sanitised names, character by character ----

  /** No slash, backslash or colon. */
  predicate Segment(s: string) {
    forall i :: 0 <= i < |s| ==> s[i] !in "/\\:"
  }

  /** The file is the stem with every character outside A-Z, a-z, 0-9, _ and - replaced by an underscore,
      and the suffix. */
  predicate SafeVersion(file: string, stem: string) {
    && |file| == |stem| + 6 && file[|stem|..] == ".pdump"
    && forall i :: 0 <= i < |stem| ==>
         file[i] == if 'A' <= stem[i] <= 'Z' || 'a' <= stem[i] <= 'z' || '0' <= stem[i] <= '9' || stem[i] == '_' || stem[i] == '-'
                    then stem[i] else '_'
  }

  lemma CleanStem(stem: string)
    ensures SafeVersion(Clean(stem) + SUFFIX, stem)
  {
    var file := Clean(stem) + SUFFIX;
    assert file[|stem|..] == SUFFIX;
    forall i | 0 <= i < |stem|
      ensures file[i] == if IsSafe(stem[i]) then stem[i] else '_'
    {
      assert file[i] == Clean(stem)[i];
    }
  }

  /** What is posted with an extension: the last dot and what follows it are dropped, and the rest is
      made safe if it has 1 to 48 characters. */
  lemma SafeDumpNameOfStem(stem: string, extension: string)
    requires Segment(stem) && Segment(extension) && '.' !in extension
    ensures var file := SafeDumpName(stem + "." + extension);
            && (file.Some? <==> 1 <= |stem| <= 48)
            && (file.Some? ==> SafeVersion(file.value, stem))
  {
    StemOf(stem, extension);
    CleanStem(stem);
  }

  lemma StemOf(stem: string, extension: string)
    requires Segment(stem) && Segment(extension) && '.' !in extension
    ensures Stem(BaseName(stem + "." + extension)) == stem
  {
    var name := stem + "." + extension;
    assert OneSegment(name);
    LastSegmentWhole(name);
    LastDot(stem, extension);
  }

  lemma {:induction false} NoDot(s: string)
    requires '.' !in s
    ensures BeforeLastDot(s) == None
  {
    if s != "" {
      NoDot(s[..|s| - 1]);
    }
  }

  /** The same without an extension. */
  lemma SafeDumpNameOfPlain(stem: string)
    requires Segment(stem) && '.' !in stem
    ensures var file := SafeDumpName(stem);
            && (file.Some? <==> 1 <= |stem| <= 48)
            && (file.Some? ==> SafeVersion(file.value, stem))
  {
    LastSegmentWhole(stem);
    NoDot(stem);
    CleanStem(stem);
  }

  lemma {:induction false} LastSegmentAfter(before: string, name: string)
    requires EndsSegment(before) && OneSegment(name)
    ensures LastSegment(before + name) == name
  {
    if name == "" {
      assert before + name == before;
    } else {
      LastSegmentAfter(before, name[..|name| - 1]);
      assert (before + name)[..|before + name| - 1] == before + name[..|name| - 1];
      assert name == name[..|name| - 1] + [name[|name| - 1]];
    }
  }

  lemma {:induction false} SlashesStripped(s: string, slashes: string)
    requires s != "" && !EndsSegment(s) && forall i :: 0 <= i < |slashes| ==> IsSlash(slashes[i])
    ensures StripTrailing(s + slashes) == s
  {
    if slashes == "" {
      assert s + slashes == s;
    } else {
      SlashesStripped(s, slashes[..|slashes| - 1]);
      assert (s + slashes)[..|s + slashes| - 1] == s + slashes[..|slashes| - 1];
    }
  }

  lemma BaseNameAfter(before: string, name: string, slashes: string)
    requires EndsSegment(before) && name != "" && OneSegment(name)
    requires forall i :: 0 <= i < |slashes| ==> IsSlash(slashes[i])
    ensures BaseName(before + name + slashes) == name && BaseName(name) == name
  {
    SlashesStripped(before + name, slashes);
    LastSegmentAfter(before, name);
    LastSegmentWhole(name);
  }

  /** Directories in front of the name and slashes after it make no difference. */
  lemma SafeDumpNameInDirectory(directory: string, slash: char, name: string, slashes: string)
    requires slash in "/\\" && (forall i :: 0 <= i < |slashes| ==> slashes[i] in "/\\")
    requires name != "" && Segment(name)
    ensures SafeDumpName(directory + [slash] + name + slashes) == SafeDumpName(name)
  {
    BaseNameAfter(directory + [slash], name, slashes);
  }

  /** Neither does a drive letter, at the start or after a slash, nor a second one after it. */
  lemma SafeDumpNameOnDrive(before: string, drive: char, drive': char, name: string)
    requires before == "" || before[|before| - 1] in "/\\"
    requires drive !in "/\\" && drive' !in "/\\" && name != "" && Segment(name)
    ensures SafeDumpName(before + [drive] + ":" + name) == SafeDumpName(name)
    ensures SafeDumpName(before + [drive] + ":" + [drive'] + ":" + name) == SafeDumpName(name)
  {
    var one := before + [drive] + ":";
    var two := one + [drive'] + ":";
    assert two[..|two| - 2] == one;
    assert EndsInDrive(one) && EndsInDrive(two);
    BaseNameAfter(one, name, "");
    BaseNameAfter(two, name, "");
    assert one + name + "" == one + name && two + name + "" == two + name;
  }

  lemma {:induction false} ColonInside(a: string, b: string)
    requires |a| >= 2 && Segment(a) && Segment(b)
    ensures !EndsSegment(a + ":" + b) && LastSegment(a + ":" + b) == a + ":" + b
  {
    var s := a + ":" + b;
    assert s[|s| - 1] == if b == "" then ':' else b[|b| - 1];
    if b == "" {
      assert s[|s| - 2] == a[|a| - 1] && s[|s| - 3] == a[|a| - 2];
      assert s[..|s| - 2] == a[..|a| - 1];
      assert s[..|s| - 1] == a;
      LastSegmentWhole(a);
    } else {
      ColonInside(a, b[..|b| - 1]);
      assert s[..|s| - 1] == a + ":" + b[..|b| - 1];
    }
    assert s == s[..|s| - 1] + [s[|s| - 1]];
  }

  /** A colon that follows two or more other characters belongs to the name, and becomes an underscore. */
  lemma SafeDumpNameWithColon(a: string, b: string, extension: string)
    requires |a| >= 2 && Segment(a) && Segment(b) && Segment(extension) && '.' !in extension
    ensures var stem := a + ":" + b; var file := SafeDumpName(stem + "." + extension);
            && (file.Some? <==> |stem| <= 48)
            && (file.Some? ==> SafeVersion(file.value, stem))
  {
    var stem := a + ":" + b;
    var name := stem + "." + extension;
    assert name == a + ":" + (b + "." + extension);
    ColonInside(a, b + "." + extension);
    LastDot(stem, extension);
    CleanStem(stem);
  }

  // ---- generated names ----

  predicate IsDigit(c: char) {
    '0' <= c <= '9'
  }

  /** A `date('Y-m-d_Hi')` of a four-digit year. */
  predicate IsStamp(s: string) {
    && |s| == 15 && s[4] == '-' && s[7] == '-' && s[10] == '_'
    && forall i :: 0 <= i < 15 && i != 4 && i != 7 && i != 10 ==> IsDigit(s[i])
  }

  /** The name create_backup stores under. */
  function BackupName(character: string, stamp: string): string {
    character + "_" + stamp + SUFFIX
  }

  /** A backup can be asked for by its own name exactly when the character's name is made of safe
      characters and has at most 32 of them. */
  lemma BackupAddressable(character: string, stamp: string)
    requires IsStamp(stamp)
    ensures SafeDumpName(BackupName(character, stamp)) == Some(BackupName(character, stamp))
       <==> AllSafe(character) && |character| <= 32
    ensures AllSafe(character) <==>
            forall i :: 0 <= i < |character| ==>
              var c := character[i];
              'A' <= c <= 'Z' || 'a' <= c <= 'z' || '0' <= c <= '9' || c == '_' || c == '-'
  {
    var name := BackupName(character, stamp);
    var base := character + "_" + stamp;
    assert name[..|name| - 6] == base && name[|name| - 6..] == SUFFIX;
    assert AllSafe(stamp);
    assert forall i :: 0 <= i < |character| ==> base[i] == character[i];
    assert AllSafe(base) <==> AllSafe(character);
    SafeDumpNameFixed(name);
  }

  /** The name is the character's, an underscore, year-month-day, an underscore, the time and the suffix. */
  lemma BackupNameReads(character: string, stamp: string)
    requires IsStamp(stamp)
    ensures var name := BackupName(character, stamp); var n := |character|;
            && |name| == n + 22 && name[..n] == character && name[n] == '_' && name[n + 16..] == ".pdump"
            && name[n + 5] == '-' && name[n + 8] == '-' && name[n + 11] == '_'
            && name[n + 1..n + 16] == stamp
            && forall i :: 0 <= i < 15 && i != 4 && i != 7 && i != 10 ==> '0' <= stamp[i] <= '9'
  {
    var name, n := BackupName(character, stamp), |character|;
    assert name == character + ("_" + stamp + SUFFIX);
    assert name[n + 1..n + 16] == stamp;
    assert name[n + 5] == stamp[4] && name[n + 8] == stamp[7] && name[n + 11] == stamp[10];
  }

  lemma BackupNameInjective(c: string, s: string, c': string, s': string)
    requires |s| == |s'| && BackupName(c, s) == BackupName(c', s')
    ensures c == c' && s == s'
  {
    var n, n' := BackupName(c, s), BackupName(c', s');
    assert |c| == |c'|;
    assert c == n[..|c|] && c' == n'[..|c|];
    assert s == n[|c| + 1..|c| + 1 + |s|] && s' == n'[|c| + 1..|c| + 1 + |s|];
  }

  function Decimal(n: nat): string {
    var ds := Minimal(n, 10);
    if n == 0 then "0" else seq(|ds|, i requires 0 <= i < |ds| => ('0' as int + ds[i]) as char)
  }

  /** The text of a number: its decimal digits, the first not 0 unless the number is. */
  lemma DecimalReads(n: nat)
    ensures var t := Decimal(n);
            && t != "" && (forall i :: 0 <= i < |t| ==> '0' <= t[i] <= '9') && (t[0] == '0' ==> n == 0 && |t| == 1)
            && BigEndian(seq(|t|, i requires 0 <= i < |t| => DigitOf(t[i])), 10) == n
  {
    var t := Decimal(n);
    var ds := seq(|t|, i requires 0 <= i < |t| => DigitOf(t[i]));
    if n == 0 {
      assert ds == [0] && ds[..0] == [];
    } else {
      assert ds == Minimal(n, 10);
      ReadMinimal(n, 10);
    }
  }

  function DigitOf(c: char): nat {
    if '0' <= c <= '9' then c as int - 48 else 0
  }

  lemma DecimalInjective(m: nat, n: nat)
    requires Decimal(m) == Decimal(n)
    ensures m == n
  {
    DecimalReads(m);
    DecimalReads(n);
  }

  // ---- paths ----

  const STORE := "backups\\characters\\"
  const TEMP_LOAD := "Server\\temp_load_"
  const TEMP_DUMP := "Server\\temp_dump_"

  function StoredPath(account: string, file: string): string {
    STORE + account + "\\" + file
  }

  function TempDumpPath(guid: nat, time: nat): string {
    TEMP_DUMP + Decimal(guid) + "_" + Decimal(time) + SUFFIX
  }

  function TempLoadPath(time: nat): string {
    TEMP_LOAD + Decimal(time) + SUFFIX
  }

  predicate InStore(path: string) {
    STORE <= path
  }

  predicate IsTempDump(path: string) {
    TEMP_DUMP <= path
  }

  /** The pattern `temp_load_*.pdump` in the server directory; the star never spans a directory. */
  predicate IsTempLoad(path: string) {
    && TEMP_LOAD <= path && |path| >= |TEMP_LOAD| + 6 && path[|path| - 6..] == SUFFIX
    && forall i :: |TEMP_LOAD| <= i < |path| ==> !IsSlash(path[i])
  }

  /** The store, the dumps being written and the dumps being loaded never share a path. */
  lemma PathsApart(path: string)
    ensures !(InStore(path) && IsTempDump(path))
    ensures !(InStore(path) && IsTempLoad(path))
    ensures !(IsTempDump(path) && IsTempLoad(path))
  {
    assert STORE[0] == 'b' && TEMP_LOAD[0] == 'S' && TEMP_DUMP[0] == 'S';
    assert TEMP_LOAD[12] == 'l' && TEMP_DUMP[12] == 'd';
  }

  lemma DecimalSafe(n: nat)
    ensures AllSafe(Decimal(n))
  {
  }

  /** The paths as the page and the server spell them. */
  lemma PathsSpelled(account: string, file: string, guid: nat, time: nat)
    ensures StoredPath(account, file) == "backups\\characters\\" + account + "\\" + file
    ensures TempDumpPath(guid, time) == "Server\\temp_dump_" + Decimal(guid) + "_" + Decimal(time) + ".pdump"
    ensures TempLoadPath(time) == "Server\\temp_load_" + Decimal(time) + ".pdump"
  {
  }

  /** The cleanup pattern: exactly these paths match. */
  lemma TempLoadExact(path: string)
    ensures IsTempLoad(path) <==>
            exists middle: string :: path == "Server\\temp_load_" + middle + ".pdump"
                                     && forall i :: 0 <= i < |middle| ==> middle[i] !in "/\\"
  {
    var n := |TEMP_LOAD|;
    if IsTempLoad(path) {
      var middle := path[n..|path| - 6];
      assert path == path[..n] + middle + path[|path| - 6..];
      assert path[..n] == TEMP_LOAD;
      assert forall i :: 0 <= i < |middle| ==> middle[i] == path[n + i];
      assert path == "Server\\temp_load_" + middle + ".pdump";
    }
    if middle: string :| path == "Server\\temp_load_" + middle + ".pdump"
                         && forall i :: 0 <= i < |middle| ==> middle[i] !in "/\\" {
      MatchesPattern(path, middle);
    }
  }

  lemma MatchesPattern(path: string, middle: string)
    requires path == TEMP_LOAD + middle + SUFFIX && forall i :: 0 <= i < |middle| ==> !IsSlash(middle[i])
    ensures IsTempLoad(path)
  {
    assert path[|path| - 6..] == SUFFIX;
    forall i | |TEMP_LOAD| <= i < |path|
      ensures !IsSlash(path[i])
    {
      assert path[i] == (middle + SUFFIX)[i - |TEMP_LOAD|];
    }
  }

  lemma GeneratedPaths(account: string, file: string, guid: nat, time: nat)
    ensures InStore(StoredPath(account, file))
    ensures IsTempDump(TempDumpPath(guid, time))
    ensures IsTempLoad(TempLoadPath(time))
  {
    DecimalSafe(time);
    var p := TempLoadPath(time);
    assert p[|p| - 6..] == SUFFIX;
    forall i | |TEMP_LOAD| <= i < |p|
      ensures !IsSlash(p[i])
    {
      var j := i - |TEMP_LOAD|;
      assert p[i] == (Decimal(time) + SUFFIX)[j];
      assert j < |Decimal(time)| ==> IsSafe(Decimal(time)[j]);
    }
  }

  lemma {:induction false} SameSplit(a: string, x: string, b: string, y: string, c: char)
    requires c !in a && c !in b && a + [c] + x == b + [c] + y
    ensures a == b && x == y
  {
    var p, q := a + [c] + x, b + [c] + y;
    assert p[0] == q[0];
    if a == "" || b == "" {
      assert a == b == "";
      assert p[1..] == x && q[1..] == y;
    } else {
      assert p[1..] == a[1..] + [c] + x && q[1..] == b[1..] + [c] + y;
      SameSplit(a[1..], x, b[1..], y, c);
      assert a == [a[0]] + a[1..] && b == [b[0]] + b[1..];
    }
  }

  /** Validated accounts determine, and with the file name are determined by, their path. */
  lemma StoredPathInjective(a: string, f: string, a': string, f': string)
    requires ValidName(a) && ValidName(a')
    requires StoredPath(a, f) == StoredPath(a', f')
    ensures a == a' && f == f'
  {
    var p, p' := StoredPath(a, f), StoredPath(a', f');
    assert p[|STORE|..] == a + "\\" + f && p'[|STORE|..] == a' + "\\" + f';
    SameSplit(a, f, a', f', '\\');
  }

  lemma DumpTail(guid: nat, time: nat)
    ensures |TempDumpPath(guid, time)| >= |TEMP_DUMP|
    ensures TempDumpPath(guid, time)[|TEMP_DUMP|..] == Decimal(guid) + ['_'] + (Decimal(time) + SUFFIX)
  {
    assert TempDumpPath(guid, time) == TEMP_DUMP + (Decimal(guid) + ['_'] + (Decimal(time) + SUFFIX));
  }

  lemma NumbersSplit(g: string, t: string, g': string, t': string)
    requires '_' !in g && '_' !in g' && g + ['_'] + (t + SUFFIX) == g' + ['_'] + (t' + SUFFIX)
    ensures g == g' && t == t'
  {
    SameSplit(g, t + SUFFIX, g', t' + SUFFIX, '_');
    SameFront(t, t', SUFFIX);
  }

  /** The path of a dump determines the character and the second it was asked for. */
  lemma TempDumpPathInjective(guid: nat, time: nat, guid': nat, time': nat)
    requires TempDumpPath(guid, time) == TempDumpPath(guid', time')
    ensures guid == guid' && time == time'
  {
    DumpTail(guid, time);
    DumpTail(guid', time');
    DecimalReads(guid);
    DecimalReads(guid');
    NumbersSplit(Decimal(guid), Decimal(time), Decimal(guid'), Decimal(time'));
    DecimalInjective(guid, guid');
    DecimalInjective(time, time');
  }

  lemma SameFront(t: string, t': string, end: string)
    requires t + end == t' + end
    ensures t == t'
  {
    assert |t| == |t'|;
    assert t == (t + end)[..|t|] && t' == (t' + end)[..|t|];
  }
}
