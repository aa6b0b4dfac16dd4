/** SCRAM-SHA-256 client of scram.rs, against a server that follows section 3 of RFC 5802 and RFC 7677. */
module Scram {
  import opened WireBytes
  import opened TextOps

  type Digest = d: seq<bv8> | |d| == 32 witness seq(32, _ => 0)

  /** The cryptographic primitives, of which only the laws below matter. */
  datatype Crypto = Crypto(
    hmac: (Digest, Bytes) -> Digest,
    sha: Digest -> Digest,
    pbkdf2: (Bytes, seq<bv8>, nat) -> Digest,
    encode: seq<bv8> -> Bytes,
    decode: Bytes -> Option<seq<bv8>>)

  const COMMA: byte := 44

  /** base64 decoding undoes encoding, and encoded text is ASCII without a comma. */
  ghost predicate Lawful(c: Crypto) {
    forall x :: c.decode(c.encode(x)) == Some(x) && COMMA !in c.encode(x) && Utf8(c.encode(x))
  }

  datatype Error =
    | InvalidServerMessage | MissingNonce | MissingSalt | MissingIterations | InvalidNonce | InvalidSalt
    | NotInitialized | InvalidServerSignature | ServerSignatureMismatch

  datatype Result<+T> = Ok(value: T) | Err(error: Error)

  // ---------------------------------------------------------------- xor

  function Xor(a: Digest, b: Digest): (r: Digest) {
    seq(32, i requires 0 <= i < 32 => a[i] ^ b[i])
  }

  method XorBytes(a: Digest, b: Digest) returns (r: Digest)
    ensures r == Xor(a, b)
  {
    var result := new bv8[32];
    for i := 0 to 32
      invariant forall k | 0 <= k < i :: result[k] == a[k] ^ b[k]
    {
      result[i] := a[i] ^ b[i];
    }
    assert result[..] == Xor(a, b);
    return result[..];
  }

  /** Xor with the signature hides exactly the key: no other one gives the same bytes. */
  lemma XorExactly(key: Digest, signature: Digest, other: Digest)
    ensures Xor(other, signature) == Xor(key, signature) <==> other == key
    ensures forall i | 0 <= i < 32 :: Xor(key, signature)[i] == key[i] ^ signature[i]
  {
    XorRecovers(key, signature);
    XorRecovers(other, signature);
  }

  /** Removing the signature from the proof recovers the client key. */
  lemma XorRecovers(key: Digest, signature: Digest)
    ensures Xor(Xor(key, signature), signature) == key
  {
    forall i | 0 <= i < 32
      ensures Xor(Xor(key, signature), signature)[i] == key[i]
    {
      XorByte(key[i], signature[i]);
    }
  }

  lemma XorByte(a: bv8, b: bv8)
    ensures (a ^ b) ^ b == a
  {
  }

  // ---------------------------------------------------------------- the messages

  /** `strip_prefix`. */
  function Strip(part: Bytes, prefix: Bytes): (r: Option<Bytes>) {
    if prefix <= part then Some(part[|prefix|..]) else None
  }

  const R := Ascii("r=")
  const S := Ascii("s=")
  const I := Ascii("i=")
  const V := Ascii("v=")

  /** The attributes of server-first: the last of each kind counts, and an unreadable iteration count unsets it. */
  datatype Attributes = Attributes(nonce: Option<Bytes>, salt: Option<Bytes>, iterations: Option<nat>)

  function ReadPart(a: Attributes, part: Bytes): (r: Attributes) {
    if Strip(part, R).Some? then a.(nonce := Strip(part, R))
    else if Strip(part, S).Some? then a.(salt := Strip(part, S))
    else if Strip(part, I).Some? then a.(iterations := ParseU32(Strip(part, I).value))
    else a
  }

  function ReadParts(parts: seq<Bytes>): (r: Attributes) {
    if parts == [] then Attributes(None, None, None) else ReadPart(ReadParts(parts[..|parts| - 1]), parts[|parts| - 1])
  }

  /** `verify_server_final` looks for the first part that starts with `r=`. */
  function FirstNonce(parts: seq<Bytes>): (r: Option<Bytes>) {
    if parts == [] then None
    else if R <= parts[0] then Strip(parts[0], R)
    else FirstNonce(parts[1..])
  }

  function ClientFirstBare(user: Bytes, nonce: Bytes): (b: Bytes) { Ascii("n=") + user + Ascii(",r=") + nonce }

  function WithoutProof(nonce: Bytes): (b: Bytes) { Ascii("c=biws,r=") + nonce }

  function AuthMessage(bare: Bytes, serverFirst: Bytes, nonce: Bytes): (b: Bytes) {
    bare + [COMMA] + serverFirst + [COMMA] + WithoutProof(nonce)
  }

  function ClientKey(c: Crypto, salted: Digest): (k: Digest) { c.hmac(salted, Ascii("Client Key")) }

  function ServerKey(c: Crypto, salted: Digest): (k: Digest) { c.hmac(salted, Ascii("Server Key")) }

  function Proof(c: Crypto, salted: Digest, auth: Bytes): (p: Digest) {
    Xor(ClientKey(c, salted), c.hmac(c.sha(ClientKey(c, salted)), auth))
  }

  // ---------------------------------------------------------------- the client

  datatype Client = Client(user: Bytes, password: Bytes, nonce: Bytes, bare: Bytes, serverFirst: Bytes, salted: Option<Digest>)

  function New(user: Bytes, password: Bytes, nonce: Bytes): (c: Client) { Client(user, password, nonce, [], [], None) }

  function First(s: Client): (r: (Client, Bytes)) {
    var bare := ClientFirstBare(s.user, s.nonce);
    (s.(bare := bare), Ascii("n,,") + bare)
  }

  function Final(c: Crypto, s: Client, serverFirst: Bytes): (r: (Client, Result<Bytes>)) {
    if !Utf8(serverFirst) then (s, Err(InvalidServerMessage))
    else
      var s1 := s.(serverFirst := serverFirst);
      var a := ReadParts(SplitOn(serverFirst, COMMA));
      if a.nonce.None? then (s1, Err(MissingNonce))
      else if a.salt.None? then (s1, Err(MissingSalt))
      else if a.iterations.None? then (s1, Err(MissingIterations))
      else if !(s.nonce <= a.nonce.value) then (s1, Err(InvalidNonce))
      else match c.decode(a.salt.value)
        case None => (s1, Err(InvalidSalt))
        case Some(salt) =>
          var salted := c.pbkdf2(s.password, salt, a.iterations.value);
          var auth := AuthMessage(s.bare, serverFirst, a.nonce.value);
          (s1.(salted := Some(salted)),
           Ok(WithoutProof(a.nonce.value) + Ascii(",p=") + c.encode(Proof(c, salted, auth))))
  }

  function Verify(c: Crypto, s: Client, serverFinal: Bytes): (r: Result<()>) {
    if !Utf8(serverFinal) then Err(InvalidServerMessage)
    else match Strip(serverFinal, V)
      case None => Err(InvalidServerSignature)
      case Some(text) =>
        match c.decode(text)
        case None => Err(InvalidServerSignature)
        case Some(signature) =>
          if s.salted.None? then Err(NotInitialized)
          else match FirstNonce(SplitOn(s.serverFirst, COMMA))
            case None => Err(MissingNonce)
            case Some(nonce) =>
              if signature == c.hmac(ServerKey(c, s.salted.value), AuthMessage(s.bare, s.serverFirst, nonce)) then Ok(())
              else Err(ServerSignatureMismatch)
  }

  class ScramClient {
    const crypto: Crypto
    const user: Bytes
    const password: Bytes
    const nonce: Bytes
    var bare: Bytes
    var serverFirst: Bytes
    var salted: Option<Digest>

    ghost function View(): Client
      reads this
    {
      Client(user, password, nonce, bare, serverFirst, salted)
    }

    constructor (crypto: Crypto, user: Bytes, password: Bytes, nonce: Bytes)
      ensures this.crypto == crypto && View() == New(user, password, nonce)
    {
      this.crypto, this.user, this.password, this.nonce := crypto, user, password, nonce;
      bare, serverFirst, salted := [], [], None;
    }

    method ClientFirst() returns (message: Bytes)
      modifies this
      ensures (View(), message) == First(old(View()))
    {
      bare := ClientFirstBare(user, nonce);
      message := Ascii("n,,") + bare;
    }

    method ClientFinal(first: Bytes) returns (r: Result<Bytes>)
      modifies this
      ensures (View(), r) == Final(crypto, old(View()), first)
    {
      hide Utf8, Ascii, SplitOn;
      if !Utf8(first) {
        return Err(InvalidServerMessage);
      }
      serverFirst := first;
      var a := ReadAttributes(SplitOn(first, COMMA));
      if a.nonce.None? { return Err(MissingNonce); }
      if a.salt.None? { return Err(MissingSalt); }
      if a.iterations.None? { return Err(MissingIterations); }
      if !(nonce <= a.nonce.value) { return Err(InvalidNonce); }
      var salt := crypto.decode(a.salt.value);
      if salt.None? { return Err(InvalidSalt); }
      var saltedPassword := crypto.pbkdf2(password, salt.value, a.iterations.value);
      salted := Some(saltedPassword);
      var withoutProof := WithoutProof(a.nonce.value);
      var auth := bare + [COMMA] + serverFirst + [COMMA] + withoutProof;
      var clientKey := crypto.hmac(saltedPassword, Ascii("Client Key"));
      var storedKey := crypto.sha(clientKey);
      var signature := crypto.hmac(storedKey, auth);
      var proof := XorBytes(clientKey, signature);
      return Ok(withoutProof + Ascii(",p=") + crypto.encode(proof));
    }

    method VerifyServerFinal(message: Bytes) returns (r: Result<()>)
      ensures r == Verify(crypto, View(), message)
    {
      hide Utf8, Ascii, SplitOn;
      if !Utf8(message) { return Err(InvalidServerMessage); }
      if !(V <= message) { return Err(InvalidServerSignature); }
      var signature := crypto.decode(message[|V|..]);
      if signature.None? { return Err(InvalidServerSignature); }
      if salted.None? { return Err(NotInitialized); }
      var serverKey := crypto.hmac(salted.value, Ascii("Server Key"));
      var found := FindNonce(SplitOn(serverFirst, COMMA));
      if found.None? { return Err(MissingNonce); }
      var auth := bare + [COMMA] + serverFirst + [COMMA] + WithoutProof(found.value);
      var expected := crypto.hmac(serverKey, auth);
      if signature.value != expected { return Err(ServerSignatureMismatch); }
      return Ok(());
    }
  }

  /** The first part that begins with `r=`. */
  method FindNonce(parts: seq<Bytes>) returns (nonce: Option<Bytes>)
    ensures nonce == FirstNonce(parts)
  {
    hide Ascii;
    assert parts[0..] == parts;
    for i := 0 to |parts|
      invariant FirstNonce(parts) == FirstNonce(parts[i..])
    {
      assert parts[i..][1..] == parts[i + 1..];
      if R <= parts[i] {
        return Some(parts[i][|R|..]);
      }
    }
    return None;
  }

  /** The loop over the comma-separated parts of server-first. */
  method ReadAttributes(parts: seq<Bytes>) returns (a: Attributes)
    ensures a == ReadParts(parts)
  {
    hide Ascii;
    a := Attributes(None, None, None);
    for i := 0 to |parts|
      invariant a == ReadParts(parts[..i])
    {
      assert parts[..i + 1][..i] == parts[..i];
      var part := parts[i];
      if R <= part {
        a := a.(nonce := Some(part[|R|..]));
      } else if S <= part {
        a := a.(salt := Some(part[|S|..]));
      } else if I <= part {
        a := a.(iterations := ParseU32(part[|I|..]));
      }
    }
    assert parts[..|parts|] == parts;
  }

  // ---------------------------------------------------------------- the server of RFC 5802

  /** What a server keeps of a user: salt, iteration count, StoredKey and ServerKey. */
  datatype Account = Account(salt: seq<bv8>, iterations: nat, storedKey: Digest, serverKey: Digest)

  function Enrol(c: Crypto, password: Bytes, salt: seq<bv8>, iterations: nat): (a: Account) {
    var salted := c.pbkdf2(password, salt, iterations);
    Account(salt, iterations, c.sha(c.hmac(salted, Ascii("Client Key"))), c.hmac(salted, Ascii("Server Key")))
  }

  /** AuthMessage as the server puts it together: client-first-bare, server-first, client-final without its proof. */
  function ServerAuth(bare: Bytes, serverFirst: Bytes, nonce: Bytes): (b: Bytes) {
    bare + [44] + serverFirst + [44] + Ascii("c=biws,r=") + nonce
  }

  /** client-first-message-bare and the client's nonce, from a client-first without channel binding. */
  function ReadClientFirst(message: Bytes): (r: Option<(Bytes, Bytes)>) {
    match Strip(message, Ascii("n,,"))
    case None => None
    case Some(bare) =>
      var parts := SplitOn(bare, COMMA);
      if |parts| == 2 && Ascii("n=") <= parts[0] && R <= parts[1] then Some((bare, parts[1][2..])) else None
  }

  function ServerFirst(c: Crypto, a: Account, clientNonce: Bytes, serverNonce: Bytes): (m: Bytes) {
    R + clientNonce + serverNonce + [COMMA] + S + c.encode(a.salt) + [COMMA] + I + Digits(a.iterations)
  }

  /** The proof sent with a client-final that names the expected nonce and channel binding. */
  function ReadClientFinal(c: Crypto, message: Bytes, nonce: Bytes): (r: Option<seq<bv8>>) {
    match Strip(message, Ascii("c=biws,r=") + nonce + Ascii(",p="))
    case None => None
    case Some(text) => c.decode(text)
  }

  /** The key which, byte by byte with the signature, gives the proof. */
  ghost predicate Recovers(key: Digest, signature: Digest, proof: seq<bv8>) {
    |proof| == 32 && forall i | 0 <= i < 32 :: key[i] ^ signature[i] == proof[i]
  }

  /** The server accepts when the key recovered from the proof hashes to StoredKey. */
  ghost predicate Accepts(c: Crypto, a: Account, auth: Bytes, proof: seq<bv8>) {
    exists key: Digest :: Recovers(key, c.hmac(a.storedKey, auth), proof) && c.sha(key) == a.storedKey
  }

  function ServerFinal(c: Crypto, a: Account, auth: Bytes): (m: Bytes) { V + c.encode(c.hmac(a.serverKey, auth)) }

  // ---------------------------------------------------------------- the handshake completes

  lemma PartsOfThree(a: Bytes, b: Bytes, d: Bytes)
    requires COMMA !in a && COMMA !in b && COMMA !in d
    ensures SplitOn(a + [COMMA] + b + [COMMA] + d, COMMA) == [a, b, d]
  {
    SplitAround(a + [COMMA] + b, COMMA, d);
    SplitAround(a, COMMA, b);
    NoSeparator(a, COMMA);
    NoSeparator(b, COMMA);
    NoSeparator(d, COMMA);
  }

  lemma Prefixes()
    ensures |R| == 2 && |S| == 2 && |I| == 2 && |V| == 2
    ensures R == [114, 61] && S == [115, 61] && I == [105, 61] && V == [118, 61]
  {
  }

  lemma ReadServerFirst(nonce: Bytes, salt: Bytes, iterations: nat)
    requires iterations < TWO32 && COMMA !in nonce && COMMA !in salt
    ensures var parts := SplitOn(R + nonce + [COMMA] + (S + salt) + [COMMA] + (I + Digits(iterations)), COMMA);
            ReadParts(parts) == Attributes(Some(nonce), Some(salt), Some(iterations)) && FirstNonce(parts) == Some(nonce)
  {
    hide SplitOn, ParseU32, Ascii, Digits;
    Prefixes();
    var a, b, d := R + nonce, S + salt, I + Digits(iterations);
    DigitsHaveNoComma(iterations);
    PartsOfThree(a, b, d);
    var parts := [a, b, d];
    assert parts[..2] == [a, b] && parts[..2][..1] == [a];
    assert Strip(a, R) == Some(nonce) && Strip(b, S) == Some(salt) && Strip(d, I) == Some(Digits(iterations));
    assert a[0] == 114 && b[0] == 115 && d[0] == 105;
    assert Strip(b, R) == None && Strip(d, R) == None && Strip(d, S) == None;
    ParseU32OfDigits(iterations);
    assert ReadParts(parts[..2][..1]) == Attributes(Some(nonce), None, None);
    assert ReadParts(parts[..2]) == Attributes(Some(nonce), Some(salt), None);
  }

  lemma DigitsHaveNoComma(n: nat)
    ensures COMMA !in Digits(n)
  {
  }

  lemma ParseU32OfDigits(n: nat)
    requires n < TWO32
    ensures ParseU32(Digits(n)) == Some(n)
  {
    DecimalOfDigits(n);
  }

  lemma SplitCount(s: Bytes, sep: byte)
    ensures |SplitOn(s, sep)| == 1 <==> sep !in s
  {
    if sep in s {
      var i :| 0 <= i < |s| && s[i] == sep;
      assert s == s[..i] + [sep] + s[i + 1..];
      SplitAround(s[..i], sep, s[i + 1..]);
    } else {
      NoSeparator(s, sep);
    }
  }

  /** The server reads the client's nonce off client-first exactly when neither user name nor nonce has a comma: the client
      does not escape them. */
  lemma ClientFirstIsRead(user: Bytes, nonce: Bytes)
    ensures ReadClientFirst(Ascii("n,,") + ClientFirstBare(user, nonce)) ==
            if COMMA !in user && COMMA !in nonce then Some((ClientFirstBare(user, nonce), nonce)) else None
  {
    hide SplitOn;
    var bare := ClientFirstBare(user, nonce);
    var n, r := Ascii("n=") + user, R + nonce;
    assert Ascii("n=") == [110, 61] && Ascii(",r=") == [COMMA] + R;
    Prefixes();
    assert bare == n + [COMMA] + r;
    assert COMMA in n <==> COMMA in user;
    assert COMMA in r <==> COMMA in nonce;
    SplitAround(n, COMMA, r);
    SplitCount(n, COMMA);
    SplitCount(r, COMMA);
    assert Strip(Ascii("n,,") + bare, Ascii("n,,")) == Some(bare);
    if COMMA !in user && COMMA !in nonce {
      NoSeparator(n, COMMA);
      NoSeparator(r, COMMA);
      assert r[2..] == nonce;
    }
  }

  /** An honest server accepts the client's proof and the client accepts the server's signature: both sides rebuild the same
      AuthMessage, and xor recovers ClientKey. */
  ghost predicate Completes(c: Crypto, user: Bytes, password: Bytes, nonce: Bytes, serverNonce: Bytes, salt: seq<bv8>, iterations: nat)
    requires Lawful(c)
  {
    var account := Enrol(c, password, salt, iterations);
    var (s1, first) := First(New(user, password, nonce));
    var serverFirst := ServerFirst(c, account, nonce, serverNonce);
    var (s2, final) := Final(c, s1, serverFirst);
    var auth := ServerAuth(s1.bare, serverFirst, nonce + serverNonce);
    && ReadClientFirst(first) == Some((s1.bare, nonce))
    && final.Ok?
    && ReadClientFinal(c, final.value, nonce + serverNonce).Some?
    && Accepts(c, account, auth, ReadClientFinal(c, final.value, nonce + serverNonce).value)
    && Verify(c, s2, ServerFinal(c, account, auth)) == Ok(())
  }

  /** For every account, user and nonce, against any comma-free nonce of the server: the handshake completes exactly when
      user name and client nonce have no comma. */
  lemma HandshakeCompletes(c: Crypto, user: Bytes, password: Bytes, nonce: Bytes, serverNonce: Bytes, salt: seq<bv8>, iterations: nat)
    requires Lawful(c) && iterations < TWO32
    requires COMMA !in serverNonce && Utf8(nonce) && Utf8(serverNonce)
    ensures Completes(c, user, password, nonce, serverNonce, salt, iterations) <==> COMMA !in user && COMMA !in nonce
  {
    hide Final, Verify, ReadClientFirst, ReadClientFinal, Accepts, AuthMessage, ServerAuth, ServerFirst, ServerFinal, Ascii,
         WithoutProof;
    ClientFirstIsRead(user, nonce);
    if COMMA !in user && COMMA !in nonce {
      var account := Enrol(c, password, salt, iterations);
      var s1 := First(New(user, password, nonce)).0;
      var serverFirst := ServerFirst(c, account, nonce, serverNonce);
      var auth := ServerAuth(s1.bare, serverFirst, nonce + serverNonce);
      AuthMessageShape(s1.bare, serverFirst, nonce + serverNonce);
      ClientAnswers(c, s1, password, serverNonce, salt, iterations);
      ProofIsRead(c, c.pbkdf2(password, salt, iterations), auth, nonce + serverNonce);
      ProofIsAccepted(c, c.pbkdf2(password, salt, iterations), auth, account);
      ClientVerifies(c, s1, password, serverNonce, salt, iterations);
    }
  }

  /** The client's state and message after server-first. */
  lemma ClientAnswers(c: Crypto, s1: Client, password: Bytes, serverNonce: Bytes, salt: seq<bv8>, iterations: nat)
    requires Lawful(c) && iterations < TWO32
    requires COMMA !in s1.nonce && COMMA !in serverNonce && Utf8(s1.nonce) && Utf8(serverNonce)
    requires s1.password == password
    ensures var account := Enrol(c, password, salt, iterations);
            var serverFirst := ServerFirst(c, account, s1.nonce, serverNonce);
            var salted := c.pbkdf2(password, salt, iterations);
            var full := s1.nonce + serverNonce;
            var auth := AuthMessage(s1.bare, serverFirst, full);
            Final(c, s1, serverFirst) ==
              (s1.(serverFirst := serverFirst, salted := Some(salted)),
               Ok(WithoutProof(full) + Ascii(",p=") + c.encode(Proof(c, salted, auth))))
  {
    hide Utf8, Ascii, SplitOn, ReadParts, FirstNonce, Proof, AuthMessage, WithoutProof, Digits;
    var account := Enrol(c, password, salt, iterations);
    var full := s1.nonce + serverNonce;
    ServerTextIsUtf8(c, account, s1.nonce, serverNonce, []);
    ServerFirstShape(c, account, s1.nonce, serverNonce);
    ReadServerFirst(full, c.encode(salt), iterations);
  }

  lemma ServerFirstShape(c: Crypto, a: Account, clientNonce: Bytes, serverNonce: Bytes)
    ensures ServerFirst(c, a, clientNonce, serverNonce) ==
            R + (clientNonce + serverNonce) + [COMMA] + (S + c.encode(a.salt)) + [COMMA] + (I + Digits(a.iterations))
  {
  }

  lemma ProofIsRead(c: Crypto, salted: Digest, auth: Bytes, nonce: Bytes)
    requires Lawful(c)
    ensures ReadClientFinal(c, WithoutProof(nonce) + Ascii(",p=") + c.encode(Proof(c, salted, auth)), nonce) == Some(Proof(c, salted, auth))
  {
    hide Proof, Ascii;
    var head := Ascii("c=biws,r=") + nonce + Ascii(",p=");
    assert WithoutProof(nonce) == Ascii("c=biws,r=") + nonce;
    assert (head + c.encode(Proof(c, salted, auth)))[|head|..] == c.encode(Proof(c, salted, auth));
  }

  lemma ClientVerifies(c: Crypto, s1: Client, password: Bytes, serverNonce: Bytes, salt: seq<bv8>, iterations: nat)
    requires Lawful(c) && iterations < TWO32
    requires COMMA !in s1.nonce && COMMA !in serverNonce && Utf8(s1.nonce) && Utf8(serverNonce)
    ensures var account := Enrol(c, password, salt, iterations);
            var serverFirst := ServerFirst(c, account, s1.nonce, serverNonce);
            var salted := c.pbkdf2(password, salt, iterations);
            var auth := ServerAuth(s1.bare, serverFirst, s1.nonce + serverNonce);
            Verify(c, s1.(serverFirst := serverFirst, salted := Some(salted)), ServerFinal(c, account, auth)) == Ok(())
  {
    hide Utf8, Ascii, Verify, ServerAuth, Digits;
    var account := Enrol(c, password, salt, iterations);
    var serverFirst := ServerFirst(c, account, s1.nonce, serverNonce);
    var auth := ServerAuth(s1.bare, serverFirst, s1.nonce + serverNonce);
    ServerTextIsUtf8(c, account, s1.nonce, serverNonce, auth);
    var text := c.encode(c.hmac(account.serverKey, auth));
    assert SignedBy(V + text, c, c.hmac(account.serverKey, auth));
    OnlySigned(c, s1, password, serverNonce, salt, iterations, V + text);
  }

  /** The message is `v=` and a text that decodes to exactly this signature. */
  ghost predicate SignedBy(m: Bytes, c: Crypto, signature: seq<bv8>) {
    exists text :: m == V + text && c.decode(text) == Some(signature)
  }

  /** With the keys and messages of an honest server, no message but its signature is accepted. */
  lemma OnlySigned(c: Crypto, s1: Client, password: Bytes, serverNonce: Bytes, salt: seq<bv8>, iterations: nat, m: Bytes)
    requires Lawful(c) && iterations < TWO32
    requires COMMA !in s1.nonce && COMMA !in serverNonce && Utf8(s1.nonce) && Utf8(serverNonce)
    ensures var account := Enrol(c, password, salt, iterations);
            var serverFirst := ServerFirst(c, account, s1.nonce, serverNonce);
            var auth := ServerAuth(s1.bare, serverFirst, s1.nonce + serverNonce);
            Verify(c, s1.(serverFirst := serverFirst, salted := Some(c.pbkdf2(password, salt, iterations))), m) == Ok(()) <==>
            Utf8(m) && SignedBy(m, c, c.hmac(account.serverKey, auth))
  {
    hide Utf8, Ascii, SplitOn, ReadParts, FirstNonce, AuthMessage, ServerAuth, Digits;
    var account := Enrol(c, password, salt, iterations);
    var serverFirst := ServerFirst(c, account, s1.nonce, serverNonce);
    ServerFirstShape(c, account, s1.nonce, serverNonce);
    ReadServerFirst(s1.nonce + serverNonce, c.encode(salt), iterations);
    AuthMessageShape(s1.bare, serverFirst, s1.nonce + serverNonce);
    if text :| m == V + text {
      assert m[|V|..] == text;
    }
    if V <= m {
      assert m == V + m[|V|..];
    }
  }

  /** A client that has answered an honest server's first message accepts a final message exactly when it is UTF-8 and `v=`
      followed by a text that decodes to the server's signature: whoever does not have ServerKey has to guess it. */
  lemma VerifyExactly(c: Crypto, user: Bytes, password: Bytes, nonce: Bytes, serverNonce: Bytes, salt: seq<bv8>,
                      iterations: nat, m: Bytes)
    requires Lawful(c) && iterations < TWO32
    requires COMMA !in nonce && COMMA !in serverNonce && Utf8(nonce) && Utf8(serverNonce)
    ensures var account := Enrol(c, password, salt, iterations);
            var s1 := First(New(user, password, nonce)).0;
            var serverFirst := ServerFirst(c, account, nonce, serverNonce);
            var s2 := Final(c, s1, serverFirst).0;
            Verify(c, s2, m) == Ok(()) <==>
            Utf8(m) && SignedBy(m, c, c.hmac(account.serverKey, ServerAuth(s1.bare, serverFirst, nonce + serverNonce)))
  {
    hide Final, Verify, ServerFirst, ServerAuth, Ascii, WithoutProof, SignedBy;
    var s1 := First(New(user, password, nonce)).0;
    ClientAnswers(c, s1, password, serverNonce, salt, iterations);
    OnlySigned(c, s1, password, serverNonce, salt, iterations, m);
  }

  // ---------------------------------------------------------------- what the client answers at all

  /** `value` stands behind the last part that begins with `prefix`. */
  ghost predicate LastWith(parts: seq<Bytes>, prefix: Bytes, value: Bytes) {
    exists i | 0 <= i < |parts| :: parts[i] == prefix + value && forall j | i < j < |parts| :: !(prefix <= parts[j])
  }

  lemma LastWithStep(parts: seq<Bytes>, part: Bytes, prefix: Bytes, value: Bytes)
    ensures LastWith(parts + [part], prefix, value) <==>
            if prefix <= part then part == prefix + value else LastWith(parts, prefix, value)
  {
    var all := parts + [part];
    assert all[|parts|] == part;
    assert forall i | 0 <= i < |parts| :: all[i] == parts[i];
    if prefix <= part {
      if i :| 0 <= i < |all| && all[i] == prefix + value && forall j | i < j < |all| :: !(prefix <= all[j]) {
        assert i == |parts|;
      }
    } else {
      NotLast(parts, part, prefix, value);
    }
  }

  lemma NotLast(parts: seq<Bytes>, part: Bytes, prefix: Bytes, value: Bytes)
    requires !(prefix <= part)
    ensures LastWith(parts + [part], prefix, value) <==> LastWith(parts, prefix, value)
  {
    var all, wanted := parts + [part], prefix + value;
    assert prefix <= wanted;
    assert all[|parts|] == part;
    assert forall i | 0 <= i < |parts| :: all[i] == parts[i];
    if i :| 0 <= i < |all| && all[i] == wanted && forall j | i < j < |all| :: !(prefix <= all[j]) {
      assert parts[i] == wanted && forall j | i < j < |parts| :: !(prefix <= parts[j]);
    }
    if i :| 0 <= i < |parts| && parts[i] == wanted && forall j | i < j < |parts| :: !(prefix <= parts[j]) {
      assert all[i] == wanted && forall j | i < j < |all| :: !(prefix <= all[j]);
    }
  }

  lemma StripExactly(part: Bytes, prefix: Bytes, value: Bytes)
    ensures Strip(part, prefix) == Some(value) <==> part == prefix + value
    ensures part == prefix + value ==> prefix <= part
  {
    if prefix <= part {
      assert part == prefix + part[|prefix|..];
    }
    if part == prefix + value {
      assert part[|prefix|..] == value;
    }
  }

  /** The attributes read are the last of each kind. */
  lemma {:induction false} ReadPartsExactly(parts: seq<Bytes>, value: Bytes)
    ensures ReadParts(parts).nonce == Some(value) <==> LastWith(parts, R, value)
    ensures ReadParts(parts).salt == Some(value) <==> LastWith(parts, S, value)
    ensures LastWith(parts, I, value) ==> ReadParts(parts).iterations == ParseU32(value)
  {
    hide Ascii, LastWith, ParseU32;
    if parts == [] {
      NoneWith(value);
    } else {
      var before, part := parts[..|parts| - 1], parts[|parts| - 1];
      ReadPartsExactly(before, value);
      assert before + [part] == parts;
      LastWithStep(before, part, R, value);
      LastWithStep(before, part, S, value);
      LastWithStep(before, part, I, value);
      StripExactly(part, R, value);
      StripExactly(part, S, value);
      StripExactly(part, I, value);
      OneKind(part);
    }
  }

  lemma NoneWith(value: Bytes)
    ensures !LastWith([], R, value) && !LastWith([], S, value) && !LastWith([], I, value)
  {
  }

  lemma OneKind(part: Bytes)
    ensures !(R <= part && S <= part) && !(R <= part && I <= part) && !(S <= part && I <= part)
  {
    Prefixes();
    assert R[0] == 114 && S[0] == 115 && I[0] == 105;
  }

  lemma {:induction false} IterationsRead(parts: seq<Bytes>)
    ensures ReadParts(parts).iterations.Some? ==> exists value :: LastWith(parts, I, value)
  {
    hide Ascii, LastWith, ParseU32;
    if parts != [] {
      var before, part := parts[..|parts| - 1], parts[|parts| - 1];
      IterationsRead(before);
      assert before + [part] == parts;
      OneKind(part);
      if I <= part {
        var value := part[|I|..];
        StripExactly(part, I, value);
        LastWithStep(before, part, I, value);
      } else if ReadParts(parts).iterations.Some? {
        var value :| LastWith(before, I, value);
        LastWithStep(before, part, I, value);
      }
    }
  }

  /** Nonce, salt and count are the last of their kinds, the nonce begins with the client's own, the salt decodes and the
      count is a 32-bit number. */
  ghost predicate Answerable(c: Crypto, s: Client, parts: seq<Bytes>, nonce: Bytes, salt: Bytes, count: Bytes) {
    && LastWith(parts, R, nonce) && LastWith(parts, S, salt) && LastWith(parts, I, count)
    && s.nonce <= nonce && c.decode(salt).Some? && ParseU32(count).Some?
  }

  /** A server-first is answered exactly when it is UTF-8, its last `r=` begins with the client's own nonce, its last `s=`
      decodes and its last `i=` is a 32-bit number. */
  lemma AnswersExactly(c: Crypto, s: Client, serverFirst: Bytes)
    ensures var parts := SplitOn(serverFirst, COMMA);
            Final(c, s, serverFirst).1.Ok? <==>
            Utf8(serverFirst) && exists nonce, salt, count :: Answerable(c, s, parts, nonce, salt, count)
  {
    hide Ascii, SplitOn, Utf8, ParseU32, LastWith, ReadParts, Proof, AuthMessage, WithoutProof;
    var parts := SplitOn(serverFirst, COMMA);
    var a := ReadParts(parts);
    if Final(c, s, serverFirst).1.Ok? {
      ReadPartsExactly(parts, a.nonce.value);
      ReadPartsExactly(parts, a.salt.value);
      IterationsRead(parts);
      var count :| LastWith(parts, I, count);
      ReadPartsExactly(parts, count);
      assert Answerable(c, s, parts, a.nonce.value, a.salt.value, count);
    }
    if Utf8(serverFirst) {
      if nonce, salt, count :| Answerable(c, s, parts, nonce, salt, count) {
        AnswerMeans(c, s, serverFirst, nonce, salt, count);
      }
    }
  }

  /** The answer names that nonce and carries the proof for it: ClientKey byte by byte with the signature under its hash. */

  lemma AnswerMeans(c: Crypto, s: Client, serverFirst: Bytes, nonce: Bytes, salt: Bytes, count: Bytes)
    requires Utf8(serverFirst) && Answerable(c, s, SplitOn(serverFirst, COMMA), nonce, salt, count)
    ensures var salted := c.pbkdf2(s.password, c.decode(salt).value, ParseU32(count).value);
            var (s', answer) := Final(c, s, serverFirst);
            && s' == s.(serverFirst := serverFirst, salted := Some(salted)) && answer.Ok?
            && exists proof: Digest ::
                 && answer.value == Ascii("c=biws,r=") + nonce + Ascii(",p=") + c.encode(proof)
                 && var key := c.hmac(salted, Ascii("Client Key"));
                    Recovers(key, c.hmac(c.sha(key), ServerAuth(s.bare, serverFirst, nonce)), proof)
  {
    hide Ascii, SplitOn, Utf8, ParseU32, LastWith, ReadParts, ServerAuth;
    var parts := SplitOn(serverFirst, COMMA);
    ReadPartsExactly(parts, nonce);
    ReadPartsExactly(parts, salt);
    ReadPartsExactly(parts, count);
    AuthMessageShape(s.bare, serverFirst, nonce);
    var salted := c.pbkdf2(s.password, c.decode(salt).value, ParseU32(count).value);
    var key, auth := ClientKey(c, salted), AuthMessage(s.bare, serverFirst, nonce);
    XorExactly(key, c.hmac(c.sha(key), auth), key);
    assert Recovers(key, c.hmac(c.sha(key), auth), Proof(c, salted, auth));
  }

  lemma ServerTextIsUtf8(c: Crypto, account: Account, nonce: Bytes, serverNonce: Bytes, auth: Bytes)
    requires Lawful(c) && Utf8(nonce) && Utf8(serverNonce)
    ensures Utf8(ServerFirst(c, account, nonce, serverNonce)) && Utf8(ServerFinal(c, account, auth))
  {
    hide Utf8, Digits, Ascii;
    Prefixes();
    var comma: Bytes := [COMMA];
    AsciiIsUtf8(R); AsciiIsUtf8(S); AsciiIsUtf8(I); AsciiIsUtf8(V); AsciiIsUtf8(comma); AsciiIsUtf8(Digits(account.iterations));
    Utf8Append(R, nonce);
    Utf8Append(R + nonce, serverNonce);
    Utf8Append(R + nonce + serverNonce, comma);
    Utf8Append(R + nonce + serverNonce + comma, S);
    Utf8Append(R + nonce + serverNonce + comma + S, c.encode(account.salt));
    Utf8Append(R + nonce + serverNonce + comma + S + c.encode(account.salt), comma);
    Utf8Append(R + nonce + serverNonce + comma + S + c.encode(account.salt) + comma, I);
    Utf8Append(R + nonce + serverNonce + comma + S + c.encode(account.salt) + comma + I, Digits(account.iterations));
    Utf8Append(V, c.encode(c.hmac(account.serverKey, auth)));
  }

  lemma ProofIsAccepted(c: Crypto, salted: Digest, auth: Bytes, account: Account)
    requires account.storedKey == c.sha(ClientKey(c, salted))
    ensures Accepts(c, account, auth, Proof(c, salted, auth))
  {
    var key, signature := ClientKey(c, salted), c.hmac(account.storedKey, auth);
    XorExactly(key, signature, key);
    assert Recovers(key, signature, Proof(c, salted, auth));
  }

  /** `client_final` uses the last `r=` of server-first and `verify_server_final` the first: they rebuild the same
      AuthMessage exactly when the two carry the same nonce. */
  lemma SameAuthMessageExactly(bare: Bytes, serverFirst: Bytes)
    requires FirstNonce(SplitOn(serverFirst, COMMA)).Some? && ReadParts(SplitOn(serverFirst, COMMA)).nonce.Some?
    ensures var parts := SplitOn(serverFirst, COMMA);
            AuthMessage(bare, serverFirst, ReadParts(parts).nonce.value) == AuthMessage(bare, serverFirst, FirstNonce(parts).value)
            <==> ReadParts(parts).nonce == FirstNonce(parts)
  {
    var parts := SplitOn(serverFirst, COMMA);
    SameSuffix(bare + [COMMA] + serverFirst + [COMMA] + Ascii("c=biws,r="), ReadParts(parts).nonce.value, FirstNonce(parts).value);
    AuthMessageShape(bare, serverFirst, ReadParts(parts).nonce.value);
    AuthMessageShape(bare, serverFirst, FirstNonce(parts).value);
  }

  lemma AuthMessageShape(bare: Bytes, serverFirst: Bytes, nonce: Bytes)
    ensures AuthMessage(bare, serverFirst, nonce) == ServerAuth(bare, serverFirst, nonce)
  {
  }

  lemma SameSuffix(pre: Bytes, a: Bytes, b: Bytes)
    ensures pre + a == pre + b <==> a == b
  {
    assert (pre + a)[|pre|..] == a && (pre + b)[|pre|..] == b;
  }

  // ---------------------------------------------------------------- refusals

  ghost predicate NoPartWith(parts: seq<Bytes>, prefix: Bytes) {
    forall i | 0 <= i < |parts| :: !(prefix <= parts[i])
  }

  /** `value` stands behind the first part that begins with `prefix`. */
  ghost predicate FirstWith(parts: seq<Bytes>, prefix: Bytes, value: Bytes) {
    exists i | 0 <= i < |parts| :: parts[i] == prefix + value && forall j | 0 <= j < i :: !(prefix <= parts[j])
  }

  lemma {:induction false} FirstNonceExactly(parts: seq<Bytes>, value: Bytes)
    ensures FirstNonce(parts) == Some(value) <==> FirstWith(parts, R, value)
    ensures FirstNonce(parts) == None <==> NoPartWith(parts, R)
  {
    hide Ascii;
    if parts != [] {
      var more := parts[1..];
      FirstNonceExactly(more, value);
      StripExactly(parts[0], R, value);
      assert forall i | 0 < i < |parts| :: parts[i] == more[i - 1];
      assert forall i | 0 <= i < |more| :: more[i] == parts[i + 1];
      if R <= parts[0] {
        assert parts[0] == R + parts[0][|R|..];
      } else {
        FirstLater(parts, R, value);
      }
    }
  }

  lemma FirstLater(parts: seq<Bytes>, prefix: Bytes, value: Bytes)
    requires parts != [] && !(prefix <= parts[0])
    ensures FirstWith(parts, prefix, value) <==> FirstWith(parts[1..], prefix, value)
  {
    var more, wanted := parts[1..], prefix + value;
    assert prefix <= wanted;
    if i :| 0 <= i < |parts| && parts[i] == wanted && forall j | 0 <= j < i :: !(prefix <= parts[j]) {
      assert more[i - 1] == wanted && forall j | 0 <= j < i - 1 :: !(prefix <= more[j]);
    }
    if i :| 0 <= i < |more| && more[i] == wanted && forall j | 0 <= j < i :: !(prefix <= more[j]) {
      assert parts[i + 1] == wanted && forall j | 0 <= j < i + 1 :: !(prefix <= parts[j]);
    }
  }

  /** The signature expected of a server that has the ServerKey of the client's salted password. */
  ghost function Expected(c: Crypto, s: Client, nonce: Bytes): (signature: Digest)
    requires s.salted.Some?
  {
    c.hmac(c.hmac(s.salted.value, Ascii("Server Key")), ServerAuth(s.bare, s.serverFirst, nonce))
  }

  /** In whatever state the client is: a final message is accepted exactly when a server-first was answered before and the
      message carries the signature under the ServerKey of the salted password, for the first `r=` of that server-first. */
  lemma VerifyMeans(c: Crypto, s: Client, m: Bytes)
    ensures Verify(c, s, m) == Ok(()) <==>
            && Utf8(m) && s.salted.Some?
            && exists nonce :: FirstWith(SplitOn(s.serverFirst, COMMA), R, nonce) && SignedBy(m, c, Expected(c, s, nonce))
  {
    hide Ascii, SplitOn, Utf8, FirstNonce, FirstWith, ServerAuth, AuthMessage;
    var parts := SplitOn(s.serverFirst, COMMA);
    if FirstNonce(parts).Some? {
      var nonce := FirstNonce(parts).value;
      FirstNonceExactly(parts, nonce);
      AuthMessageShape(s.bare, s.serverFirst, nonce);
    }
    if V <= m {
      assert m == V + m[|V|..];
    }
    if Utf8(m) && s.salted.Some? {
      if nonce :| FirstWith(parts, R, nonce) && SignedBy(m, c, Expected(c, s, nonce)) {
        FirstNonceExactly(parts, nonce);
        var text :| m == V + text && c.decode(text) == Some(Expected(c, s, nonce));
        assert m[|V|..] == text;
      }
    }
  }

  /** The first of these that fails decides which error a final message gets. */
  lemma VerifyErrors(c: Crypto, s: Client, m: Bytes)
    ensures var r := Verify(c, s, m);
            var decodes := V <= m && c.decode(m[|V|..]).Some?;
            && (r == Err(InvalidServerMessage) <==> !Utf8(m))
            && (r == Err(InvalidServerSignature) <==> Utf8(m) && !decodes)
            && (r == Err(NotInitialized) <==> Utf8(m) && decodes && s.salted.None?)
            && (r == Err(MissingNonce) <==>
                  Utf8(m) && decodes && s.salted.Some? && NoPartWith(SplitOn(s.serverFirst, COMMA), R))
            && (r.Err? ==> r.error.InvalidServerMessage? || r.error.InvalidServerSignature? || r.error.NotInitialized?
                           || r.error.MissingNonce? || r.error.ServerSignatureMismatch?)
  {
    hide Ascii, SplitOn, Utf8, FirstNonce, NoPartWith, AuthMessage;
    FirstNonceExactly(SplitOn(s.serverFirst, COMMA), []);
  }

  /** An attribute is missing exactly when no part has its prefix; the count also when the last one is no 32-bit number. */
  lemma {:induction false} MissingParts(parts: seq<Bytes>)
    ensures ReadParts(parts).nonce.None? <==> NoPartWith(parts, R)
    ensures ReadParts(parts).salt.None? <==> NoPartWith(parts, S)
  {
    hide Ascii, ParseU32;
    if parts != [] {
      var before, part := parts[..|parts| - 1], parts[|parts| - 1];
      MissingParts(before);
      OneKind(part);
      assert forall i | 0 <= i < |before| :: before[i] == parts[i];
    }
  }

  ghost predicate Countless(parts: seq<Bytes>) {
    forall count | LastWith(parts, I, count) :: ParseU32(count).None?
  }

  lemma CountlessMeans(parts: seq<Bytes>)
    ensures ReadParts(parts).iterations.None? <==> Countless(parts)
  {
    hide Ascii, ParseU32, LastWith, ReadParts;
    IterationsRead(parts);
    forall count | LastWith(parts, I, count)
      ensures ReadParts(parts).iterations == ParseU32(count)
    {
      ReadPartsExactly(parts, count);
    }
  }

  /** The first of these that fails decides which error a server-first gets. */
  lemma FinalErrors(c: Crypto, s: Client, serverFirst: Bytes)
    ensures var r := Final(c, s, serverFirst).1;
            var parts := SplitOn(serverFirst, COMMA);
            && (r == Err(InvalidServerMessage) <==> !Utf8(serverFirst))
            && (r == Err(MissingNonce) <==> Utf8(serverFirst) && NoPartWith(parts, R))
            && (r == Err(MissingSalt) <==> Utf8(serverFirst) && !NoPartWith(parts, R) && NoPartWith(parts, S))
            && (r == Err(MissingIterations) <==>
                  Utf8(serverFirst) && !NoPartWith(parts, R) && !NoPartWith(parts, S) && Countless(parts))
            && (r == Err(InvalidNonce) <==>
                  && Utf8(serverFirst) && !NoPartWith(parts, R) && !NoPartWith(parts, S) && !Countless(parts)
                  && exists nonce :: LastWith(parts, R, nonce) && !(s.nonce <= nonce))
            && (r.Err? ==> r.error.InvalidServerMessage? || r.error.MissingNonce? || r.error.MissingSalt?
                           || r.error.MissingIterations? || r.error.InvalidNonce? || r.error.InvalidSalt?)
  {
    hide Ascii, SplitOn, Utf8, ParseU32, LastWith, ReadParts, NoPartWith, Countless, Proof, AuthMessage, WithoutProof;
    var parts := SplitOn(serverFirst, COMMA);
    MissingParts(parts);
    CountlessMeans(parts);
    if ReadParts(parts).nonce.Some? {
      ReadPartsExactly(parts, ReadParts(parts).nonce.value);
    }
    forall nonce | LastWith(parts, R, nonce)
      ensures ReadParts(parts).nonce == Some(nonce)
    {
      ReadPartsExactly(parts, nonce);
    }
  }
}
