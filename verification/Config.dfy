/** Reading the database coordinates out of a server configuration file. */
module Config {
  import opened Options
  import opened Text

  datatype Result<+T> = Ok(value: T) | Err(error: ConfigError)
  datatype ConfigError = Unreadable | Malformed

  /** `explode(';', s)`. */
  function Explode(s: string): (r: seq<string>)
    ensures |r| >= 1
  {
    if s == "" then [""]
    else
      var r := Explode(s[1..]);
      if s[0] == ';' then [""] + r else [[s[0]] + r[0]] + r[1..]
  }

  /** The fields with a semicolon between each two. */
  function Join(fields: seq<string>): string
    requires fields != []
  {
    if |fields| == 1 then fields[0] else fields[0] + ";" + Join(fields[1..])
  }

  function Semicolons(s: string): nat {
    if s == "" then 0 else (if s[0] == ';' then 1 else 0) + Semicolons(s[1..])
  }

  predicate AllPlain(fields: seq<string>) {
    forall i :: 0 <= i < |fields| ==> ';' !in fields[i]
  }

  lemma JoinCons(f: string, rest: seq<string>)
    requires rest != []
    ensures Join([f] + rest) == f + ";" + Join(rest)
  {
    assert ([f] + rest)[1..] == rest;
  }

  lemma Grouped(c: string, a: string, b: string)
    ensures (c + a) + ";" + b == c + (a + ";" + b)
  {
  }

  /** A character in front of the first field is in front of the whole. */
  lemma JoinFront(c: string, r: seq<string>)
    requires r != []
    ensures Join([c + r[0]] + r[1..]) == c + Join(r)
  {
    if |r| == 1 {
      assert [c + r[0]] + r[1..] == [c + r[0]];
    } else {
      JoinCons(c + r[0], r[1..]);
      Grouped(c, r[0], Join(r[1..]));
    }
  }

  lemma JoinStep(s: string)
    requires s != "" && Join(Explode(s[1..])) == s[1..]
    ensures Join(Explode(s)) == s
  {
    var r := Explode(s[1..]);
    assert s == [s[0]] + s[1..];
    if s[0] == ';' {
      JoinCons("", r);
    } else {
      JoinFront([s[0]], r);
    }
  }

  lemma {:induction false} JoinExplode(s: string)
    ensures Join(Explode(s)) == s
    ensures |Explode(s)| == Semicolons(s) + 1
    ensures AllPlain(Explode(s))
  {
    if s != "" {
      JoinExplode(s[1..]);
      JoinStep(s);
    }
  }

  lemma {:induction false} ExplodeJoin(fields: seq<string>)
    requires fields != [] && AllPlain(fields)
    ensures Explode(Join(fields)) == fields
    decreases |fields|, if fields == [] then 0 else |fields[0]|
  {
    var s := Join(fields);
    if fields[0] == "" {
      if |fields| > 1 {
        assert s[1..] == Join(fields[1..]);
        ExplodeJoin(fields[1..]);
      }
    } else {
      var shorter := [fields[0][1..]] + fields[1..];
      assert shorter[1..] == fields[1..];
      assert s[1..] == Join(shorter);
      ExplodeJoin(shorter);
      assert fields[0] == [fields[0][0]] + fields[0][1..];
      assert s[0] == fields[0][0];
    }
  }

  // ---- the pattern /^setting\s*=\s*"([^"]+)"/mi ----

  predicate IsSpace(c: char) {
    c == ' ' || c == '\t' || c == '\n' || c == '\r' || c == '\U{0B}' || c == '\U{0C}'
  }

  function SkipSpace(s: string): string {
    if s != "" && IsSpace(s[0]) then SkipSpace(s[1..]) else s
  }

  /** Everything before the first quotation mark, if there is one. */
  function UpToQuote(s: string): Option<string> {
    if s == "" then None
    else if s[0] == '"' then Some("")
    else match UpToQuote(s[1..]) case None => None case Some(v) => Some([s[0]] + v)
  }

  /** The quoted value after the setting's name. */
  function Assigned(rest: string): Option<string> {
    var a := SkipSpace(rest);
    if a == "" || a[0] != '=' then None
    else
      var b := SkipSpace(a[1..]);
      if b == "" || b[0] != '"' then None
      else
        var v := UpToQuote(b[1..]);
        if v == Some("") then None else v
  }

  predicate LineStart(content: string, p: nat)
    requires p <= |content|
  {
    p == 0 || content[p - 1] == '\n'
  }

  function MatchAt(content: string, setting: string, p: nat): Option<string>
    requires p <= |content|
  {
    if LineStart(content, p) && p + |setting| <= |content|
       && Upper(content[p..p + |setting|]) == Upper(setting)
    then Assigned(content[p + |setting|..])
    else None
  }

  /** The leftmost match at or after p. */
  function FirstMatch(content: string, setting: string, p: nat): Option<string>
    requires p <= |content|
    decreases |content| - p
  {
    var m := MatchAt(content, setting, p);
    if m.Some? || p == |content| then m else FirstMatch(content, setting, p + 1)
  }

  function DatabaseInfo(content: Option<string>, setting: string): Result<seq<string>> {
    if content == None then Err(Unreadable)
    else
      match FirstMatch(content.value, setting, 0)
      case None => Err(Unreadable)
      case Some(value) =>
        var parts := Explode(value);
        if |parts| != 5 then Err(Malformed) else Ok(parts)
  }

  /** It succeeds exactly on a first match with four semicolons, and the result is the only list of
      semicolon-free fields that joins to the matched value. */
  lemma DatabaseInfoExact(content: string, setting: string, fields: seq<string>)
    ensures DatabaseInfo(Some(content), setting) == Ok(fields) <==>
            |fields| == 5 && AllPlain(fields) && FirstMatch(content, setting, 0) == Some(Join(fields))
    ensures DatabaseInfo(Some(content), setting).Ok? <==>
            FirstMatch(content, setting, 0).Some? && Semicolons(FirstMatch(content, setting, 0).value) == 4
  {
    var m := FirstMatch(content, setting, 0);
    if m.Some? {
      JoinExplode(m.value);
    }
    if |fields| == 5 && AllPlain(fields) {
      ExplodeJoin(fields);
    }
  }

  predicate AllSpace(s: string) {
    forall i :: 0 <= i < |s| ==> IsSpace(s[i])
  }

  lemma {:induction false} SkipsSpace(ws: string, rest: string)
    requires AllSpace(ws) && (rest != "" ==> !IsSpace(rest[0]))
    ensures SkipSpace(ws + rest) == rest
  {
    if ws == "" {
      assert ws + rest == rest;
    } else {
      SkipsSpace(ws[1..], rest);
      assert (ws + rest)[1..] == ws[1..] + rest;
    }
  }

  lemma {:induction false} ReadsUpToQuote(v: string, rest: string)
    requires '"' !in v
    ensures UpToQuote(v + "\"" + rest) == Some(v)
  {
    if v != "" {
      ReadsUpToQuote(v[1..], rest);
      assert (v + "\"" + rest)[1..] == v[1..] + "\"" + rest;
      assert v == [v[0]] + v[1..];
    }
  }

  lemma ReadsAssignment(ws: string, ws': string, value: string, rest: string)
    requires AllSpace(ws) && AllSpace(ws') && value != "" && '"' !in value
    ensures Assigned(ws + "=" + ws' + "\"" + value + "\"" + rest) == Some(value)
  {
    var quoted := "\"" + value + "\"" + rest;
    var tail := "=" + ws' + quoted;
    assert ws + "=" + ws' + "\"" + value + "\"" + rest == ws + tail;
    SkipsSpace(ws, tail);
    assert tail[1..] == ws' + quoted;
    SkipsSpace(ws', quoted);
    assert quoted[1..] == value + "\"" + rest;
    ReadsUpToQuote(value, rest);
  }

  lemma {:induction false} FirstMatchFrom(content: string, setting: string, p: nat, q: nat)
    requires p <= q <= |content|
    requires forall i :: p <= i < q ==> MatchAt(content, setting, i).None?
    requires MatchAt(content, setting, q).Some?
    ensures FirstMatch(content, setting, p) == MatchAt(content, setting, q)
    decreases q - p
  {
    if p < q {
      FirstMatchFrom(content, setting, p + 1, q);
    }
  }

  lemma {:induction false} JoinedFields(fields: seq<string>)
    requires fields != [] && forall i :: 0 <= i < |fields| ==> '"' !in fields[i]
    ensures '"' !in Join(fields) && |Join(fields)| >= |fields| - 1
  {
    if |fields| > 1 {
      JoinedFields(fields[1..]);
    }
  }

  lemma Sliced(a: string, b: string, c: string)
    ensures (a + (b + c))[|a|..|a| + |b|] == b && (a + (b + c))[|a| + |b|..] == c
  {
  }

  lemma AssignmentMatches(before: string, name: string, setting: string, ws: string, ws': string,
                          value: string, after: string, content: string)
    requires value != "" && '"' !in value
    requires Upper(name) == Upper(setting) && AllSpace(ws) && AllSpace(ws')
    requires content == before + (name + (ws + "=" + ws' + "\"" + value + "\"" + after))
    requires LineStart(content, |before|)
    ensures MatchAt(content, setting, |before|) == Some(value)
  {
    var rest := ws + "=" + ws' + "\"" + value + "\"" + after;
    assert |name| == |Upper(name)| == |setting|;
    Sliced(before, name, rest);
    ReadsAssignment(ws, ws', value, after);
  }

  /** Parsing inverts printing: a line that assigns five semicolon-free and quote-free fields, in any
      letter case of the setting's name and with any white space around the equals sign, is read
      back as those fields when no earlier position of the file matches. */
  lemma DatabaseInfoRoundTrip(before: string, name: string, setting: string, ws: string, ws': string,
                              fields: seq<string>, after: string, content: string)
    requires |fields| == 5 && AllPlain(fields) && forall i :: 0 <= i < |fields| ==> '"' !in fields[i]
    requires Upper(name) == Upper(setting) && AllSpace(ws) && AllSpace(ws')
    requires content == before + (name + (ws + "=" + ws' + "\"" + Join(fields) + "\"" + after))
    requires LineStart(content, |before|)
    requires forall p :: 0 <= p < |before| ==> MatchAt(content, setting, p).None?
    ensures DatabaseInfo(Some(content), setting) == Ok(fields)
  {
    JoinedFields(fields);
    AssignmentMatches(before, name, setting, ws, ws', Join(fields), after, content);
    FirstMatchFrom(content, setting, 0, |before|);
    DatabaseInfoExact(content, setting, fields);
  }

  // ---- the match, character by character ----

  /** The setting's name in any letter case, white space, an equals sign, white space, and the value,
      which is not empty, between quotation marks; after that, anything. */
  predicate Assignment(s: string, setting: string, name: string, ws: string, ws': string, value: string, rest: string) {
    && s == name + ws + "=" + ws' + "\"" + value + "\"" + rest
    && Upper(name) == Upper(setting) && value != "" && '"' !in value
    && (forall i :: 0 <= i < |ws| ==> ws[i] in " \t\n\r\U{0B}\U{0C}")
    && (forall i :: 0 <= i < |ws'| ==> ws'[i] in " \t\n\r\U{0B}\U{0C}")
  }

  lemma {:induction false} SkipSpaceSplits(s: string) returns (ws: string)
    ensures AllSpace(ws) && s == ws + SkipSpace(s)
  {
    if s != "" && IsSpace(s[0]) {
      var rest := SkipSpaceSplits(s[1..]);
      ws := [s[0]] + rest;
      assert s == [s[0]] + s[1..];
      assert ws + SkipSpace(s) == [s[0]] + (rest + SkipSpace(s));
    } else {
      ws := "";
    }
  }

  lemma {:induction false} UpToQuoteSplits(s: string) returns (rest: string)
    requires UpToQuote(s).Some?
    ensures '"' !in UpToQuote(s).value && s == UpToQuote(s).value + "\"" + rest
  {
    if s[0] == '"' {
      rest := s[1..];
      assert s == "" + "\"" + rest;
    } else {
      rest := UpToQuoteSplits(s[1..]);
      var v := UpToQuote(s[1..]).value;
      assert s == [s[0]] + s[1..];
      assert UpToQuote(s).value + "\"" + rest == [s[0]] + (v + "\"" + rest);
    }
  }

  lemma AssignedSplits(s: string) returns (ws: string, ws': string, rest: string)
    requires Assigned(s).Some?
    ensures AllSpace(ws) && AllSpace(ws') && Assigned(s).value != "" && '"' !in Assigned(s).value
    ensures s == ws + "=" + ws' + "\"" + Assigned(s).value + "\"" + rest
  {
    ws := SkipSpaceSplits(s);
    var a := SkipSpace(s);
    ws' := SkipSpaceSplits(a[1..]);
    var b := SkipSpace(a[1..]);
    rest := UpToQuoteSplits(b[1..]);
    var v := Assigned(s).value;
    assert a == "=" + a[1..] && b == "\"" + b[1..];
    Joined(ws, ws', v, rest, s, a, b);
  }

  lemma Joined(ws: string, ws': string, v: string, rest: string, s: string, a: string, b: string)
    requires s == ws + a && a == "=" + (ws' + b) && b == "\"" + (v + "\"" + rest)
    ensures s == ws + "=" + ws' + "\"" + v + "\"" + rest
  {
    assert ws + "=" + ws' + "\"" + v + "\"" + rest == ws + ("=" + (ws' + ("\"" + (v + "\"" + rest))));
  }

  lemma MatchFound(content: string, setting: string, p: nat)
      returns (name: string, ws: string, ws': string, rest: string)
    requires p <= |content| && MatchAt(content, setting, p).Some?
    ensures p == 0 || content[p - 1] == '\n'
    ensures Assignment(content[p..], setting, name, ws, ws', MatchAt(content, setting, p).value, rest)
  {
    var n := p + |setting|;
    name := content[p..n];
    ws, ws', rest := AssignedSplits(content[n..]);
    var v := MatchAt(content, setting, p).value;
    assert content[p..] == name + content[n..];
    Prefixed(name, ws, ws', v, rest);
  }

  lemma Prefixed(name: string, ws: string, ws': string, v: string, rest: string)
    ensures name + (ws + "=" + ws' + "\"" + v + "\"" + rest) == name + ws + "=" + ws' + "\"" + v + "\"" + rest
  {
  }

  lemma MatchGiven(content: string, setting: string, p: nat, name: string, ws: string, ws': string, value: string, rest: string)
    requires p <= |content| && (p == 0 || content[p - 1] == '\n')
    requires Assignment(content[p..], setting, name, ws, ws', value, rest)
    ensures MatchAt(content, setting, p) == Some(value)
  {
    Prefixed(name, ws, ws', value, rest);
    assert content == content[..p] + content[p..];
    AssignmentMatches(content[..p], name, setting, ws, ws', value, rest, content);
  }

  /** What the pattern finds at a position: exactly the value of an assignment that begins there, at the
      beginning of the file or after a newline. */
  lemma MatchAtExact(content: string, setting: string, p: nat, value: string)
    requires p <= |content|
    ensures MatchAt(content, setting, p) == Some(value) <==>
            && (p == 0 || content[p - 1] == '\n')
            && exists name, ws, ws', rest :: Assignment(content[p..], setting, name, ws, ws', value, rest)
  {
    if MatchAt(content, setting, p) == Some(value) {
      var name, ws, ws', rest := MatchFound(content, setting, p);
      assert Assignment(content[p..], setting, name, ws, ws', value, rest);
    }
    if name, ws, ws', rest :| Assignment(content[p..], setting, name, ws, ws', value, rest) {
      if p == 0 || content[p - 1] == '\n' {
        MatchGiven(content, setting, p, name, ws, ws', value, rest);
      }
    }
  }

  /** A match at q, and none from p up to q. */
  predicate FirstAt(content: string, setting: string, p: nat, q: nat, value: string) {
    && p <= q <= |content| && MatchAt(content, setting, q) == Some(value)
    && forall i :: p <= i < q ==> MatchAt(content, setting, i).None?
  }

  lemma {:induction false} FirstFound(content: string, setting: string, p: nat, value: string) returns (q: nat)
    requires p <= |content| && FirstMatch(content, setting, p) == Some(value)
    ensures FirstAt(content, setting, p, q, value)
    decreases |content| - p
  {
    q := p;
    if MatchAt(content, setting, p).None? {
      q := FirstFound(content, setting, p + 1, value);
    }
  }

  lemma {:induction false} FirstGiven(content: string, setting: string, p: nat, q: nat, value: string)
    requires FirstAt(content, setting, p, q, value)
    ensures FirstMatch(content, setting, p) == Some(value)
    decreases q - p
  {
    if p < q {
      FirstGiven(content, setting, p + 1, q, value);
    }
  }

  /** The search returns the match at the first position that has one. */
  lemma FirstMatchExact(content: string, setting: string, p: nat, value: string)
    requires p <= |content|
    ensures FirstMatch(content, setting, p) == Some(value) <==>
            exists q: nat :: FirstAt(content, setting, p, q, value)
  {
    if FirstMatch(content, setting, p) == Some(value) {
      var q := FirstFound(content, setting, p, value);
    }
    if q: nat :| FirstAt(content, setting, p, q, value) {
      FirstGiven(content, setting, p, q, value);
    }
  }

  /** A line after a newline is found. */
  lemma SettingOnLaterLine(before: string, name: string, setting: string, ws: string, ws': string,
                           fields: seq<string>, after: string)
    requires |fields| == 5 && AllPlain(fields) && forall i :: 0 <= i < |fields| ==> '"' !in fields[i]
    requires Upper(name) == Upper(setting) && AllSpace(ws) && AllSpace(ws')
    requires var content := before + "\n" + (name + (ws + "=" + ws' + "\"" + Join(fields) + "\"" + after));
             forall p :: 0 <= p <= |before| ==> MatchAt(content, setting, p).None?
    ensures DatabaseInfo(Some(before + "\n" + (name + (ws + "=" + ws' + "\"" + Join(fields) + "\"" + after))), setting)
         == Ok(fields)
  {
    var content := before + "\n" + (name + (ws + "=" + ws' + "\"" + Join(fields) + "\"" + after));
    assert content[|before|] == '\n' && |before + "\n"| == |before| + 1;
    DatabaseInfoRoundTrip(before + "\n", name, setting, ws, ws', fields, after, content);
  }
}
