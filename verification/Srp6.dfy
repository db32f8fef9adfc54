/** The account row `vanillaSrp6` builds, and what a server that knows only that row can do. SHA-1
    is any function from byte strings to 20 bytes. */
module Srp6 {
  import opened Arithmetic
  import opened Hex
  import opened Numerals
  import opened Options
  import opened Text

  type Digest = d: Bytes | |d| == 20 witness seq(20, _ => 0)
  type Hash = Bytes -> Digest
  type Random = b: Bytes | |b| == 32 witness seq(32, _ => 0)

  const PRIME: nat := 0x894B645E89E1535BBDAD5B8B290650530801B18EBFBF5E8FAB3C82872A3E9BB7
  const GENERATOR: nat := 7
  // 7 * INVERSE == 5 * PRIME + 1
  const INVERSE: nat := 0x621147b13dea16f862e98a87f8bb5df22a4a5a4164641ef8e806a6608be393cc

  /** The two hexadecimal columns `v` and `s` of an account row. */
  datatype Row = Row(verifier: string, salt: string)

  /** The bytes of a PHP string. */
  function BytesOf(s: string): Bytes {
    seq(|s|, i requires 0 <= i < |s| => s[i] as int % 256)
  }

  /** `ord($salt[0]) | 0x80`: bit 7 set, the seven lower bits kept. */
  function SetTopBit(b: Byte): Byte {
    128 + b % 128
  }

  function PasswordHash(sha1: Hash, username: string, password: string): Digest {
    sha1(BytesOf(username + ":" + password))
  }

  /** x from the salt as stored (most significant byte first) and the password hash. */
  function PrivateExponent(sha1: Hash, passwordHash: Digest, salt: Bytes): nat {
    LittleEndian(sha1(Reverse(salt) + passwordHash), 256)
  }

  function Verifier(x: nat): nat {
    PowMod(GENERATOR, x, PRIME)
  }

  function StoredSalt(random: Random): (salt: Random) {
    random[0 := SetTopBit(random[0])]
  }

  function StoredRow(sha1: Hash, username: string, password: string, random: Random): Row {
    var salt := StoredSalt(random);
    var x := PrivateExponent(sha1, PasswordHash(sha1, username, password), salt);
    Row(Upper(GmpText(Verifier(x))), Upper(Bin2Hex(salt)))
  }

  /** `vanillaSrp6`. The 32 random bytes arrive in `salt`, which is changed in place. */
  method VanillaSrp6(sha1: Hash, gmpLoaded: bool, username: string, password: string, salt: array<Byte>)
    returns (row: Option<Row>)
    requires salt.Length == 32
    modifies salt
    ensures row == if gmpLoaded then Some(StoredRow(sha1, username, password, old(salt[..]))) else None
    ensures salt[..] == if gmpLoaded then StoredSalt(old(salt[..])) else old(salt[..])
  {
    if !gmpLoaded {
      return None;
    }
    var passwordHash := PasswordHash(sha1, username, password);
    salt[0] := SetTopBit(salt[0]);
    assert salt[..] == StoredSalt(old(salt[..]));
    var xDigest := sha1(Reverse(salt[..]) + passwordHash);
    var x := GmpFromLittleEndian(xDigest);
    LittleEndianReads(xDigest);
    var verifier := PowMod(GENERATOR, x.value, PRIME);
    row := Some(Row(Upper(GmpText(verifier)), Upper(Bin2Hex(salt[..]))));
  }

  // ---- verifiers ----

  /** 7 is invertible modulo the prime, so no verifier is 0. */
  lemma VerifierRange(x: nat)
    ensures 1 <= Verifier(x) < PRIME
  {
    var p, q := Pow(GENERATOR, x), Pow(INVERSE, x);
    PowDistributes(GENERATOR, INVERSE, x);
    PowCongruent(GENERATOR * INVERSE, 1, x, PRIME);
    PowOne(x);
    assert (p * q) % PRIME == 1;
    if p % PRIME == 0 {
      MulCongruent(p, 0, q, q, PRIME);
      assert false;
    }
  }

  lemma {:induction false} PowOne(e: nat)
    ensures Pow(1, e) == 1
  {
    if e > 0 {
      PowOne(e - 1);
    }
  }

  lemma Powers()
    ensures PRIME < Pow(16, 64) == Pow(256, 32)
    ensures 128 * Pow(256, 31) == 0x8000000000000000000000000000000000000000000000000000000000000000
    ensures Pow(256, 32) == 0x10000000000000000000000000000000000000000000000000000000000000000
  {
    assert Pow(256, 1) == 256;
    PowAdds(256, 1, 1);
    PowAdds(256, 2, 2);
    PowAdds(256, 4, 4);
    PowAdds(256, 8, 8);
    PowAdds(256, 16, 16);
    assert Pow(256, 32) == 256 * Pow(256, 31);
    assert Pow(16, 2) == 256;
    PowMultiplies(16, 2, 32);
  }

  predicate IsUpperHex(s: string) {
    forall i :: 0 <= i < |s| ==> '0' <= s[i] <= '9' || 'A' <= s[i] <= 'F'
  }

  lemma UpperHexText(ds: Digits)
    requires InBase(ds, 16)
    ensures IsUpperHex(Upper(HexText(ds)))
  {
    forall i | 0 <= i < |ds|
      ensures var c := Upper(HexText(ds))[i]; '0' <= c <= '9' || 'A' <= c <= 'F'
    {
      assert Upper(HexText(ds))[i] == UpperChar(LowerDigit(ds[i]));
    }
  }

  /** The verifier column: 1 to 64 upper-case hexadecimal digits, the first one not 0, denoting a
      number between 1 and the prime. */
  lemma VerifierColumn(x: nat)
    ensures var v := Upper(GmpText(Verifier(x)));
            IsUpperHex(v) && 1 <= |v| <= 64 && v[0] != '0' && ParseHex(v) == Some(Verifier(x))
  {
    VerifierRange(x);
    Powers();
    var ds := Minimal(Verifier(x), 16);
    MinimalLength(Verifier(x), 16, 64);
    UpperHexText(ds);
    GmpTextReads(Verifier(x));
    assert Upper(HexText(ds))[0] == UpperChar(LowerDigit(ds[0]));
  }

  /** The salt column: 64 upper-case digits denoting a number in [2^255, 2^256), whose minimal
      big-endian bytes are again the 32 salt bytes. */
  lemma SaltColumn(random: Random)
    ensures var salt := StoredSalt(random); var s := Upper(Bin2Hex(salt));
            && IsUpperHex(s) && |s| == 64
            && ParseHex(s) == Some(BigEndian(salt, 256))
            && 0x8000000000000000000000000000000000000000000000000000000000000000 <= BigEndian(salt, 256)
            && BigEndian(salt, 256) < 0x10000000000000000000000000000000000000000000000000000000000000000
            && Minimal(BigEndian(salt, 256), 256) == salt
  {
    var salt := StoredSalt(random);
    SplitBytes(salt);
    UpperHexText(Split(salt, 16));
    BinHexReads(salt);
    Powers();
    ValueBelow(salt, 256);
    ValueAtLeast(salt, 256);
    assert salt[0] >= 128;
    PowPositive(256, 31);
    assert salt[0] * Pow(256, 31) >= 128 * Pow(256, 31);
    MinimalInvertsRead(salt, 256);
  }

  /** The shape of a row made here. */
  predicate WellFormed(row: Row) {
    && IsUpperHex(row.verifier) && 1 <= |row.verifier| <= 64 && row.verifier[0] != '0'
    && IsUpperHex(row.salt) && |row.salt| == 64
  }

  lemma StoredRowWellFormed(sha1: Hash, username: string, password: string, random: Random)
    ensures WellFormed(StoredRow(sha1, username, password, random))
  {
    VerifierColumn(PrivateExponent(sha1, PasswordHash(sha1, username, password), StoredSalt(random)));
    SaltColumn(random);
  }

  /** The salt is made of the random bytes: bit 7 of the first is set, all else is as it came. */
  lemma SaltBits(random: Random)
    ensures var salt := StoredSalt(random);
            && salt[0] / 128 == 1 && salt[0] % 128 == random[0] % 128
            && forall i :: 1 <= i < 32 ==> salt[i] == random[i]
  {
  }

  // ---- the digested text ----

  /** Byte i is the code of character i. */
  lemma BytesAreCodes(s: string, i: nat)
    requires i < |s| && s[i] as int < 256
    ensures |BytesOf(s)| == |s| && BytesOf(s)[i] == s[i] as int
  {
  }

  /** What the inner digest of section 3 of RFC 2945 is taken of: name, colon, password. */
  function InnerBytes(username: string, password: string): Bytes {
    BytesOf(username) + [58] + BytesOf(password)
  }

  lemma PageDigest(sha1: Hash, username: string, password: string)
    ensures PasswordHash(sha1, username, password) == sha1(InnerBytes(username, password))
  {
    assert BytesOf(username + ":" + password) == InnerBytes(username, password);
  }

  lemma NameCode(c: char)
    requires 'A' <= c <= 'Z' || '0' <= c <= '9'
    ensures c as int < 256 && c as int != 58
  {
  }

  lemma {:induction false} FirstColon(a: Bytes, x: Bytes, b: Bytes, y: Bytes)
    requires (forall i :: 0 <= i < |a| ==> a[i] != 58) && (forall i :: 0 <= i < |b| ==> b[i] != 58)
    requires a + [58] + x == b + [58] + y
    ensures a == b && x == y
  {
    var p, q := a + [58] + x, b + [58] + y;
    assert p[0] == q[0];
    if a == [] || b == [] {
      assert a == b == [];
      assert p[1..] == x && q[1..] == y;
    } else {
      assert p[1..] == a[1..] + [58] + x && q[1..] == b[1..] + [58] + y;
      FirstColon(a[1..], x, b[1..], y);
      assert a == [a[0]] + a[1..] && b == [b[0]] + b[1..];
    }
  }

  lemma SameCodes(s: string, t: string)
    requires Spelled(s) && Spelled(t) && BytesOf(s) == BytesOf(t)
    ensures s == t
  {
    assert |BytesOf(s)| == |s| && |BytesOf(t)| == |t|;
    forall i | 0 <= i < |s|
      ensures s[i] == t[i]
    {
      NameCode(s[i]);
      NameCode(t[i]);
      BytesAreCodes(s, i);
      BytesAreCodes(t, i);
    }
  }

  /** The digested bytes determine name and password. */
  lemma InnerBytesDetermine(u: string, p: string, u': string, p': string)
    requires Spelled(u) && Spelled(p) && Spelled(u') && Spelled(p') && InnerBytes(u, p) == InnerBytes(u', p')
    ensures u == u' && p == p'
  {
    forall s: string, i | Spelled(s) && 0 <= i < |BytesOf(s)|
      ensures BytesOf(s)[i] != 58
    {
      NameCode(s[i]);
      BytesAreCodes(s, i);
    }
    FirstColon(BytesOf(u), BytesOf(p), BytesOf(u'), BytesOf(p'));
    SameCodes(u, u');
    SameCodes(p, p');
  }

  // ---- reading the row back ----

  /** What a server computes from the salt column, the name and the password, as in section 3 of RFC
      2945: the salt is parsed as a number and written least significant byte first. */
  function RecomputedExponent(sha1: Hash, username: string, password: string, saltText: string): Option<nat> {
    match ParseHex(saltText)
    case None => None
    case Some(n) =>
      Some(LittleEndian(sha1(NumberBytes(n) + sha1(InnerBytes(username, password))), 256))
  }

  /** A number as bytes, least significant first, without padding. */
  function NumberBytes(n: nat): Bytes {
    var ds := Minimal(n, 256);
    Reverse<Byte>(seq(|ds|, i requires 0 <= i < |ds| => ds[i] as Byte))
  }

  predicate Authenticates(sha1: Hash, username: string, password: string, row: Row) {
    var x := RecomputedExponent(sha1, username, password, row.salt);
    x.Some? && ParseHex(row.verifier) == Some(Verifier(x.value))
  }

  /** A reader that parses the salt as a number recovers its bytes exactly when the first byte is
      not zero: the reason for setting the top bit. */
  lemma SaltBytesRecovered(salt: Bytes)
    ensures NumberBytes(BigEndian(salt, 256)) == Reverse(salt) <==> (salt == [] || salt[0] != 0)
  {
    var minimal := Minimal(BigEndian(salt, 256), 256);
    var bytes := seq(|minimal|, i requires 0 <= i < |minimal| => minimal[i] as Byte);
    assert bytes == minimal;
    MinimalInvertsRead(salt, 256);
    assert NumberBytes(BigEndian(salt, 256)) == Reverse(bytes);
    ReverseTwice(bytes);
    ReverseTwice(salt);
  }

  lemma ExponentRecomputed(sha1: Hash, username: string, password: string, random: Random)
    ensures RecomputedExponent(sha1, username, password, StoredRow(sha1, username, password, random).salt)
         == Some(PrivateExponent(sha1, PasswordHash(sha1, username, password), StoredSalt(random)))
  {
    SaltColumn(random);
    var salt := StoredSalt(random);
    SaltBytesRecovered(salt);
    PageDigest(sha1, username, password);
  }

  /** Round trip of the row: for every name, password and 32 random bytes, repeating the digest and
      the exponentiation from the stored salt gives exactly the stored verifier. */
  lemma RowRoundTrip(sha1: Hash, username: string, password: string, random: Random)
    ensures Authenticates(sha1, username, password, StoredRow(sha1, username, password, random))
  {
    ExponentRecomputed(sha1, username, password, random);
    VerifierColumn(PrivateExponent(sha1, PasswordHash(sha1, username, password), StoredSalt(random)));
  }

  // ---- the exchange of section 2.6 of RFC 5054 ----

  function ClientKey(a: nat): nat {
    PowMod(GENERATOR, a, PRIME)
  }

  function ServerKey(v: nat, b: nat, k: nat): nat {
    (k * v + PowMod(GENERATOR, b, PRIME)) % PRIME
  }

  function ClientPremaster(x: nat, a: nat, u: nat, k: nat, serverKey: nat): nat {
    PowMod(serverKey - k * PowMod(GENERATOR, x, PRIME), a + u * x, PRIME)
  }

  function ServerPremaster(v: nat, b: nat, u: nat, clientKey: nat): nat {
    PowMod(clientKey * PowMod(v, u, PRIME), b, PRIME)
  }

  /** A client with exponent x and a server with verifier v reach the same premaster value. */
  predicate PremasterAgrees(x: nat, v: nat, a: nat, b: nat, u: nat, k: nat) {
    ClientPremaster(x, a, u, k, ServerKey(v, b, k)) == ServerPremaster(v, b, u, ClientKey(a))
  }

  lemma ClientSide(x: nat, a: nat, b: nat, u: nat, k: nat)
    ensures 0 <= b * (a + u * x)
    ensures ClientPremaster(x, a, u, k, ServerKey(Verifier(x), b, k)) == PowMod(GENERATOR, b * (a + u * x), PRIME)
  {
    var v, g := Verifier(x), Pow(GENERATOR, b);
    var base := ServerKey(v, b, k) - k * v;
    RemainderCongruent(g, PRIME);
    RemainderCongruent(k * v + g % PRIME, PRIME);
    AddCongruent(k * v, k * v, g % PRIME, g, PRIME);
    AddCongruent(ServerKey(v, b, k), k * v + g, k * v, k * v, PRIME);
    assert base % PRIME == g % PRIME;
    PowCongruent(base, g, a + u * x, PRIME);
    PowMultiplies(GENERATOR, b, a + u * x);
  }

  lemma ServerSide(x: nat, a: nat, b: nat, u: nat)
    ensures 0 <= (a + x * u) * b
    ensures ServerPremaster(Verifier(x), b, u, ClientKey(a)) == PowMod(GENERATOR, (a + x * u) * b, PRIME)
  {
    var v, g, h := Verifier(x), Pow(GENERATOR, x), Pow(GENERATOR, a);
    RemainderCongruent(g, PRIME);
    RemainderCongruent(h, PRIME);
    PowCongruent(v, g, u, PRIME);
    PowMultiplies(GENERATOR, x, u);
    RemainderCongruent(Pow(v, u), PRIME);
    MulCongruent(ClientKey(a), h, PowMod(v, u, PRIME), Pow(GENERATOR, x * u), PRIME);
    PowAdds(GENERATOR, a, x * u);
    PowCongruent(ClientKey(a) * PowMod(v, u, PRIME), Pow(GENERATOR, a + x * u), b, PRIME);
    PowMultiplies(GENERATOR, a + x * u, b);
  }

  /** A row is usable: from its two columns alone the server reaches the premaster value of any
      client whose name and password fit it, for all exponents and every multiplier. */
  lemma PremasterAgreement(sha1: Hash, username: string, password: string, row: Row, a: nat, b: nat, u: nat, k: nat)
    requires Authenticates(sha1, username, password, row)
    ensures PremasterAgrees(RecomputedExponent(sha1, username, password, row.salt).value,
                            ParseHex(row.verifier).value, a, b, u, k)
  {
    var x := RecomputedExponent(sha1, username, password, row.salt).value;
    ClientSide(x, a, b, u, k);
    ServerSide(x, a, b, u);
    assert b * (a + u * x) == (a + x * u) * b;
  }

  /** In particular the row vanillaSrp6 makes, with the name and password it was made from. */
  lemma StoredRowUsable(sha1: Hash, username: string, password: string, random: Random,
                        a: nat, b: nat, u: nat, k: nat)
    ensures var row := StoredRow(sha1, username, password, random);
            var v := ParseHex(row.verifier);
            var x := RecomputedExponent(sha1, username, password, row.salt);
            v.Some? && x.Some? && PremasterAgrees(x.value, v.value, a, b, u, k)
  {
    RowRoundTrip(sha1, username, password, random);
    PremasterAgreement(sha1, username, password, StoredRow(sha1, username, password, random), a, b, u, k);
  }
}
