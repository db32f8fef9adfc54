/** The string functions every form field passes through: `trim`, `strtoupper` and the anchored
    account-name pattern. A PHP string is a byte string; its characters are its bytes. */
module Text {

  /** The characters `trim` strips by default. */
  predicate IsBlank(c: char) {
    c == ' ' || c == '\t' || c == '\n' || c == '\r' || c == '\0' || c == '\U{0B}'
  }

  function TrimLeft(s: string): string {
    if s != "" && IsBlank(s[0]) then TrimLeft(s[1..]) else s
  }

  function TrimRight(s: string): string {
    if s != "" && IsBlank(s[|s| - 1]) then TrimRight(s[..|s| - 1]) else s
  }

  function Trim(s: string): string {
    TrimRight(TrimLeft(s))
  }

  function UpperChar(c: char): char {
    if 'a' <= c <= 'z' then (c as int - 32) as char else c
  }

  function Upper(s: string): (r: string)
    ensures |r| == |s|
    ensures forall i :: 0 <= i < |s| ==> r[i] == UpperChar(s[i])
  {
    seq(|s|, i requires 0 <= i < |s| => UpperChar(s[i]))
  }

  /** What every action does to a posted account name or password. */
  function Canonical(raw: string): string {
    Upper(Trim(raw))
  }

  predicate IsNameChar(c: char) {
    'A' <= c <= 'Z' || '0' <= c <= '9'
  }

  predicate ValidName(s: string) {
    3 <= |s| <= 16 && forall i :: 0 <= i < |s| ==> IsNameChar(s[i])
  }

  /** `/^[A-Z0-9]{3,16}$/`: the dollar sign also matches before a final newline. */
  predicate MatchesName(s: string) {
    ValidName(s) || (s != "" && s[|s| - 1] == '\n' && ValidName(s[..|s| - 1]))
  }

  predicate AllBlank(s: string) {
    forall i :: 0 <= i < |s| ==> IsBlank(s[i])
  }

  predicate NoBlankEnds(s: string) {
    s != "" ==> !IsBlank(s[0]) && !IsBlank(s[|s| - 1])
  }

  lemma {:induction false} TrimLeftDropsBlanks(l: string, m: string)
    requires AllBlank(l) && (m != "" ==> !IsBlank(m[0]))
    ensures TrimLeft(l + m) == m
  {
    if l == "" {
      assert l + m == m;
    } else {
      TrimLeftDropsBlanks(l[1..], m);
      assert (l + m)[1..] == l[1..] + m;
    }
  }

  lemma {:induction false} TrimRightDropsBlanks(m: string, r: string)
    requires AllBlank(r) && (m != "" ==> !IsBlank(m[|m| - 1]))
    ensures TrimRight(m + r) == m
  {
    if r == "" {
      assert m + r == m;
    } else {
      TrimRightDropsBlanks(m, r[..|r| - 1]);
      assert (m + r)[..|m + r| - 1] == m + r[..|r| - 1];
    }
  }

  /** `trim` returns the middle of any string padded with its six characters, and drops nothing else. */
  lemma TrimDropsPadding(l: string, m: string, r: string)
    requires forall i :: 0 <= i < |l| ==> l[i] in " \t\n\r\0\U{0B}"
    requires forall i :: 0 <= i < |r| ==> r[i] in " \t\n\r\0\U{0B}"
    requires m != "" ==> m[0] !in " \t\n\r\0\U{0B}" && m[|m| - 1] !in " \t\n\r\0\U{0B}"
    ensures Trim(l + m + r) == m
  {
    TrimDropsBlanks(l, m, r);
  }

  lemma TrimDropsBlanks(l: string, m: string, r: string)
    requires AllBlank(l) && AllBlank(r) && NoBlankEnds(m)
    ensures Trim(l + m + r) == m
  {
    if m == "" {
      assert l + m + r == (l + r) + "";
      TrimLeftDropsBlanks(l + r, "");
    } else {
      assert l + m + r == l + (m + r);
      TrimLeftDropsBlanks(l, m + r);
      TrimRightDropsBlanks(m, r);
    }
  }

  lemma {:induction false} TrimLeftSplits(s: string) returns (l: string)
    ensures AllBlank(l) && s == l + TrimLeft(s)
    ensures TrimLeft(s) != "" ==> !IsBlank(TrimLeft(s)[0])
  {
    if s != "" && IsBlank(s[0]) {
      var rest := TrimLeftSplits(s[1..]);
      l := [s[0]] + rest;
      assert s == [s[0]] + s[1..];
      assert l + TrimLeft(s) == [s[0]] + (rest + TrimLeft(s));
    } else {
      l := "";
    }
  }

  lemma {:induction false} TrimRightSplits(s: string) returns (r: string)
    ensures AllBlank(r) && s == TrimRight(s) + r
    ensures TrimRight(s) != "" ==> !IsBlank(TrimRight(s)[|TrimRight(s)| - 1])
  {
    if s != "" && IsBlank(s[|s| - 1]) {
      var rest := TrimRightSplits(s[..|s| - 1]);
      r := rest + [s[|s| - 1]];
      assert s == s[..|s| - 1] + [s[|s| - 1]];
      assert TrimRight(s) + r == (TrimRight(s) + rest) + [s[|s| - 1]];
    } else {
      r := "";
    }
  }

  /** Every string is its trimmed middle between two runs of blanks. */
  lemma TrimSplits(s: string) returns (l: string, r: string)
    ensures AllBlank(l) && AllBlank(r) && NoBlankEnds(Trim(s)) && s == l + Trim(s) + r
  {
    l := TrimLeftSplits(s);
    r := TrimRightSplits(TrimLeft(s));
    assert Trim(s) != "" ==> TrimLeft(s)[0] == Trim(s)[0];
  }

  lemma UpperKeepsBlanks(s: string)
    ensures NoBlankEnds(Upper(s)) <==> NoBlankEnds(s)
    ensures Upper(Upper(s)) == Upper(s)
  {
  }

  /** Canonical text has no blank ends, so the pattern's newline case can never apply: a posted
      name passes the pattern exactly when it is 3 to 16 upper-case letters or digits. */
  lemma CanonicalNames(raw: string)
    ensures NoBlankEnds(Canonical(raw))
    ensures MatchesName(Canonical(raw)) <==> ValidName(Canonical(raw))
  {
    var l, r := TrimSplits(raw);
    UpperKeepsBlanks(Trim(raw));
  }

  lemma TrimKeeps(s: string)
    requires NoBlankEnds(s)
    ensures Trim(s) == s
  {
  }

  lemma CanonicalIdempotent(raw: string)
    ensures Canonical(Canonical(raw)) == Canonical(raw)
  {
    CanonicalNames(raw);
    TrimKeeps(Canonical(raw));
    UpperKeepsBlanks(Trim(raw));
  }

  /** Padding and letter case never matter: any such variant names the same account. */
  lemma CanonicalForgetsPaddingAndCase(l: string, m: string, r: string, m': string)
    requires AllBlank(l) && AllBlank(r) && NoBlankEnds(m) && Upper(m) == Upper(m')
    ensures Canonical(l + m + r) == Canonical(m')
  {
    TrimDropsBlanks(l, m, r);
    UpperKeepsBlanks(m);
    UpperKeepsBlanks(m');
    TrimKeeps(m');
  }

  // ---- the accepted names, character by character ----

  /** The raw text is the name in any letter case, between characters that `trim` strips. */
  predicate Variant(raw: string, l: string, m': string, r: string, m: string) {
    && raw == l + m' + r && |m'| == |m|
    && (forall i :: 0 <= i < |l| ==> l[i] in " \t\n\r\0\U{0B}")
    && (forall i :: 0 <= i < |r| ==> r[i] in " \t\n\r\0\U{0B}")
    && (forall i :: 0 <= i < |m| ==> m'[i] == m[i] || ('A' <= m[i] <= 'Z' && m'[i] as int == m[i] as int + 32))
  }

  predicate Spelled(m: string) {
    3 <= |m| <= 16 && forall i :: 0 <= i < |m| ==> 'A' <= m[i] <= 'Z' || '0' <= m[i] <= '9'
  }

  lemma VariantCanonical(raw: string, l: string, m': string, r: string, m: string)
    requires Spelled(m) && Variant(raw, l, m', r, m)
    ensures Canonical(raw) == m
  {
    forall i | 0 <= i < |m|
      ensures UpperChar(m'[i]) == m[i] && !IsBlank(m'[i])
    {
    }
    TrimDropsBlanks(l, m', r);
    assert Upper(m') == m;
  }

  lemma CanonicalVariant(raw: string) returns (l: string, m': string, r: string)
    requires Spelled(Canonical(raw))
    ensures Variant(raw, l, m', r, Canonical(raw))
  {
    l, r := TrimSplits(raw);
    m' := Trim(raw);
  }

  /** A posted name is taken for m exactly if it is m in any letter case with any padding. */
  lemma CanonicalExact(raw: string, m: string)
    requires Spelled(m)
    ensures Canonical(raw) == m <==> exists l, m', r :: Variant(raw, l, m', r, m)
  {
    if Canonical(raw) == m {
      var l, m', r := CanonicalVariant(raw);
      assert Variant(raw, l, m', r, m);
    }
    if l, m', r :| Variant(raw, l, m', r, m) {
      VariantCanonical(raw, l, m', r, m);
    }
  }

  /** It passes the pattern exactly if it is so taken for 3 to 16 upper-case letters or digits. */
  lemma AcceptedExact(raw: string)
    ensures MatchesName(Canonical(raw)) <==> Spelled(Canonical(raw))
    ensures MatchesName(Canonical(raw)) <==> exists m, l, m', r :: Spelled(m) && Variant(raw, l, m', r, m)
  {
    CanonicalNames(raw);
    if Spelled(Canonical(raw)) {
      var l, m', r := CanonicalVariant(raw);
      assert Spelled(Canonical(raw)) && Variant(raw, l, m', r, Canonical(raw));
    }
    if m, l, m', r :| Spelled(m) && Variant(raw, l, m', r, m) {
      VariantCanonical(raw, l, m', r, m);
    }
  }

  function Lower(s: string): string {
    seq(|s|, i requires 0 <= i < |s| => if 'A' <= s[i] <= 'Z' then (s[i] as int + 32) as char else s[i])
  }

  /** So names may be typed in lower case and with blanks around them. */
  lemma LowerCaseTaken(l: string, m: string, r: string)
    requires Spelled(m) && (forall i :: 0 <= i < |l + r| ==> (l + r)[i] in " \t\n\r\0\U{0B}")
    ensures Canonical(l + Lower(m) + r) == m
  {
    forall i | 0 <= i < |l|
      ensures l[i] in " \t\n\r\0\U{0B}"
    {
      assert l[i] == (l + r)[i];
    }
    forall i | 0 <= i < |r|
      ensures r[i] in " \t\n\r\0\U{0B}"
    {
      assert r[i] == (l + r)[|l| + i];
    }
    VariantCanonical(l + Lower(m) + r, l, Lower(m), r, m);
  }

  lemma UpperKeepsNames(s: string)
    requires ValidName(s)
    ensures Upper(s) == s
  {
    assert forall i :: 0 <= i < |s| ==> Upper(s)[i] == s[i];
  }

  lemma ValidNamesAreCanonical(s: string)
    requires ValidName(s)
    ensures Canonical(s) == s
  {
    TrimKeeps(s);
    UpperKeepsNames(s);
  }
}
