/** The password-hashing and token-signing libraries (bcryptjs and
    jsonwebtoken) as oracles. The model never looks inside them; it relies on
    the behaviour their `Accepts()` and `Sound()` predicates state. The random
    salt of bcrypt, the signing secret and the clock are arguments. */
module Crypto {
  import opened Options
  import opened Text

  /** jsonwebtoken's `expiresIn: "7d"`, in seconds. */
  const TokenLifetime: int := 7 * 24 * 60 * 60

  /** bcrypt reads at most this many bytes of key material. */
  const BcryptKeyBytes: int := 72

  /** The key bcrypt (versions 2a and 2b) actually hashes. The password's UTF-8
      bytes and a closing zero byte are read as a stream that starts over at its
      end, and the key is the first 72 bytes of that stream. It begins with the
      password's own bytes, and a short password's bytes are followed by the zero. */
  function BcryptKey(password: string): (r: seq<int>)
    ensures |r| == BcryptKeyBytes
    ensures forall i :: 0 <= i < |Utf8(password)| && i < BcryptKeyBytes ==> r[i] == Utf8(password)[i]
    ensures |Utf8(password)| < BcryptKeyBytes ==> r[|Utf8(password)|] == 0
  {
    Stream(Utf8(password) + [0], BcryptKeyBytes)
  }

  /** The first `n` bytes read from `bytes` when reading starts over at the end
      (bcrypt's `streamtoword`): the bytes themselves, then the same again with
      a period of `|bytes|`. */
  function Stream(bytes: seq<int>, n: nat): (r: seq<int>)
    requires |bytes| > 0
    ensures |r| == n
    ensures forall i :: 0 <= i < |bytes| && i < n ==> r[i] == bytes[i]
    ensures forall i :: |bytes| <= i < n ==> r[i] == r[i - |bytes|]
    decreases n
  {
    if n <= |bytes| then bytes[..n] else bytes + Stream(bytes, n - |bytes|)
  }

  /** Reading a doubled stream gives the same bytes as reading the single one. */
  lemma {:induction false} StreamOfDouble(bytes: seq<int>, n: nat)
    requires |bytes| > 0
    ensures Stream(bytes + bytes, n) == Stream(bytes, n)
    decreases n
  {
    var k := |bytes|;
    if n <= k {
      assert (bytes + bytes)[..n] == bytes[..n];
    } else if n <= 2 * k {
      assert Stream(bytes, n - k) == bytes[..n - k];
      assert (bytes + bytes)[..n] == bytes + bytes[..n - k];
    } else {
      StreamOfDouble(bytes, n - 2 * k);
      assert Stream(bytes, n - k) == bytes + Stream(bytes, n - 2 * k);
    }
  }

  /** bcrypt: `hash(password, salt)` embeds the salt in its result and
      `compare(password, hash)` recomputes and compares. */
  datatype PasswordHasher = PasswordHasher(hash: (string, nat) -> string, compare: (string, string) -> bool)
  {
    /** A hash accepts the password it was made from. */
    ghost predicate Accepts() {
      forall p, salt :: compare(p, hash(p, salt))
    }

    /** A comparison looks only at the bcrypt key of the password: passwords with
        the same key compare alike against every hash. */
    ghost predicate ReadsKeyOnly() {
      forall p, q, h :: BcryptKey(p) == BcryptKey(q) ==> compare(p, h) == compare(q, h)
    }

    /** Besides the two properties above, a password whose key differs is
        refused. This is bcrypt taken as free of collisions. */
    ghost predicate Sound() {
      && Accepts()
      && ReadsKeyOnly()
      && (forall p, q, salt :: BcryptKey(p) != BcryptKey(q) ==> !compare(q, hash(p, salt)))
    }
  }

  /** jsonwebtoken with one process-wide secret: `sign(userId, issuedAt)` makes a
      token and `verify(token, now)` returns the user id it carries, or nothing
      when the token is malformed, forged or expired (clock in seconds). */
  datatype TokenSigner = TokenSigner(sign: (string, int) -> string, verify: (string, int) -> Option<string>)
  {
    /** A token is never empty (a JWT has three dot-separated parts) and verifies
        to its user id until its expiry and to nothing afterwards. */
    ghost predicate Sound() {
      && (forall userId, issuedAt :: sign(userId, issuedAt) != "")
      && (forall userId, issuedAt, now ::
            verify(sign(userId, issuedAt), now) == if now < issuedAt + TokenLifetime then Some(userId) else None)
    }
  }

  /** hashPassword: the hash made with a fresh salt accepts the password. */
  function HashPassword(h: PasswordHasher, password: string, salt: nat): (r: string)
    ensures h.Accepts() ==> h.compare(password, r)
  {
    h.hash(password, salt)
  }

  /** comparePassword: only the bcrypt key of the password matters. */
  function ComparePassword(h: PasswordHasher, password: string, hash: string): (r: bool)
    ensures h.ReadsKeyOnly() ==> forall q :: BcryptKey(q) == BcryptKey(password) ==> h.compare(q, hash) == r
  {
    h.compare(password, hash)
  }

  /** generateToken: a non-empty token that verifies to the user at once. */
  function GenerateToken(s: TokenSigner, userId: string, issuedAt: int): (r: string)
    ensures s.Sound() ==> r != "" && s.verify(r, issuedAt) == Some(userId)
  {
    s.sign(userId, issuedAt)
  }

  /** verifyToken. The source's try/catch turns every failure of the library
      into `null`: here the oracle's `None`. A token the signer issued gives its
      user until it expires, and nothing afterwards. */
  function VerifyToken(s: TokenSigner, token: string, now: int): (r: Option<string>)
    ensures s.Sound() ==> forall userId, issuedAt :: token == s.sign(userId, issuedAt) ==>
              r == if now < issuedAt + TokenLifetime then Some(userId) else None
  {
    s.verify(token, now)
  }

  /** A password compares true against its own hash. */
  lemma PasswordRoundTrip(h: PasswordHasher, password: string, salt: nat)
    requires h.Accepts()
    ensures ComparePassword(h, password, HashPassword(h, password, salt))
  {
  }

  /** A password whose bcrypt key differs compares false against the hash. */
  lemma PasswordMismatchRejected(h: PasswordHasher, password: string, other: string, salt: nat)
    requires h.Sound()
    requires BcryptKey(other) != BcryptKey(password)
    ensures !ComparePassword(h, other, HashPassword(h, password, salt))
  {
  }

  /** Anything appended to a password of 72 or more characters is ignored:
      the longer password compares true against the shorter one's hash. */
  lemma LongPasswordTruncated(h: PasswordHasher, password: string, suffix: string, salt: nat)
    requires h.Accepts() && h.ReadsKeyOnly()
    requires |password| >= BcryptKeyBytes
    ensures ComparePassword(h, password + suffix, HashPassword(h, password, salt))
  {
    Utf8Concat(password, suffix);
    var a := Utf8(password);
    assert Utf8(password + suffix)[..|a|] == a;
    assert BcryptKey(password + suffix) == BcryptKey(password);
  }

  /** A password followed by a zero character and itself again reads the same key
      stream as the password alone, so it compares true against that password's
      hash: "ab\0ab" matches the hash of "ab". */
  lemma RepeatAfterZeroMatches(h: PasswordHasher, password: string, salt: nat)
    requires h.Accepts() && h.ReadsKeyOnly()
    ensures password + "\0" + password != password
    ensures ComparePassword(h, password + "\0" + password, HashPassword(h, password, salt))
  {
    var a := Utf8(password);
    Utf8Concat(password + "\0", password);
    Utf8Concat(password, "\0");
    assert Utf8("\0") == [0];
    assert Utf8(password + "\0" + password) + [0] == (a + [0]) + (a + [0]);
    StreamOfDouble(a + [0], BcryptKeyBytes);
  }

  lemma TokenRoundTrip(s: TokenSigner, userId: string, issuedAt: int, now: int)
    requires s.Sound()
    ensures now < issuedAt + TokenLifetime ==> VerifyToken(s, GenerateToken(s, userId, issuedAt), now) == Some(userId)
    ensures now >= issuedAt + TokenLifetime ==> VerifyToken(s, GenerateToken(s, userId, issuedAt), now) == None
  {
  }
}
