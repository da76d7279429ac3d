/**
 * ZRTP messages, roles and key derivation: src/zrtp.cc and src/zrtp/ (RFC 6189 sections 4.2,
 * 4.4.1.4, 4.4.3.2, 4.5 and 9). Hash, HMAC, Diffie-Hellman and cipher are uninterpreted.
 */
module ZrtpKeys {
  import opened Bytes
  import opened Wrappers

  datatype Crypto = Crypto(
    sha256: seq<byte> -> seq<byte>,
    hmac: (seq<byte>, seq<byte>) -> seq<byte>,
    publicKey: seq<byte> -> seq<byte>,
    sharedSecret: (seq<byte>, seq<byte>) -> seq<byte>,
    encrypt: (seq<byte>, seq<byte>, seq<byte>) -> seq<byte>,
    decrypt: (seq<byte>, seq<byte>, seq<byte>) -> seq<byte>)

  /** Both ends of a Diffie-Hellman exchange reach one secret, decryption undoes encryption, and
      digests have 32 octets. */
  ghost predicate Lawful(c: Crypto) {
    && (forall x, y :: c.sharedSecret(x, c.publicKey(y)) == c.sharedSecret(y, c.publicKey(x)))
    && (forall key, iv, data :: c.decrypt(key, iv, c.encrypt(key, iv, data)) == data)
    && (forall key, data :: |c.hmac(key, data)| == 32)
  }

  datatype Mode = Dh | Mult

  datatype Role = Initiator | Responder

  function Opposite(r: Role): Role {
    if r == Initiator then Responder else Initiator
  }

  /** What one side brings to a session. A head holds the octets of a message before the fields
      below, and in a DHPart message the identifiers of the retained secrets as well. */
  datatype Own = Own(h0: seq<byte>, zid: seq<byte>, private: seq<byte>, nonce: seq<byte>, iv: seq<byte>,
                     helloHead: seq<byte>, commitHead: seq<byte>, dh1Head: seq<byte>, dh2Head: seq<byte>)

  datatype Message =
    | Hello(head: seq<byte>, hash: seq<byte>, zid: seq<byte>, mac: seq<byte>)
    | HelloAck
    | Commit(head: seq<byte>, hash: seq<byte>, zid: seq<byte>, algorithms: seq<byte>, hvi: seq<byte>, mac: seq<byte>)
    | DhPart1(head: seq<byte>, hash: seq<byte>, pk: seq<byte>, mac: seq<byte>)
    | DhPart2(head: seq<byte>, hash: seq<byte>, pk: seq<byte>, mac: seq<byte>)
    | Confirm1(mac: seq<byte>, iv: seq<byte>, encrypted: seq<byte>)
    | Confirm2(mac: seq<byte>, iv: seq<byte>, encrypted: seq<byte>)
    | Conf2Ack

  /** The octets a message authentication code is computed over, without the final code. */
  function Body(m: Message): seq<byte> {
    match m
    case Hello(head, hash, zid, _) => head + hash + zid
    case Commit(head, hash, zid, algorithms, hvi, _) => head + hash + zid + algorithms + hvi
    case DhPart1(head, hash, pk, _) => head + hash + pk
    case DhPart2(head, hash, pk, _) => head + hash + pk
    case _ => []
  }

  /** A message as it enters a hash. */
  function Octets(m: Message): seq<byte>
    requires m.Hello? || m.Commit? || m.DhPart1? || m.DhPart2?
  {
    Body(m) + m.mac
  }

  function Prefix(x: seq<byte>, n: nat): seq<byte> {
    if |x| <= n then x else x[..n]
  }

  function Ascii(s: string): seq<byte> {
    seq(|s|, i requires 0 <= i < |s| => s[i] as int % 0x100)
  }

  /** The codes in messages are truncated to 64 bits. */
  function Mac(c: Crypto, key: seq<byte>, data: seq<byte>): seq<byte> {
    Prefix(c.hmac(key, data), 8)
  }

  /** The hash chain H0 to H3. */
  function Chain(c: Crypto, h0: seq<byte>, i: nat): seq<byte> {
    if i == 0 then h0 else c.sha256(Chain(c, h0, i - 1))
  }

  const HELLO_MAC_SPAN := 81

  function HelloOf(c: Crypto, own: Own): Message {
    var body := own.helloHead + Chain(c, own.h0, 3) + own.zid;
    Hello(own.helloHead, Chain(c, own.h0, 3), own.zid, Mac(c, Chain(c, own.h0, 2), Prefix(body, HELLO_MAC_SPAN)))
  }

  function Algorithms(mode: Mode): seq<byte> {
    Ascii("S256AES1HS32") + Ascii(if mode == Dh then "DH3k" else "Mult") + Ascii("B32 ")
  }

  function CommitOf(c: Crypto, mode: Mode, own: Own, hvi: seq<byte>): Message {
    var body := own.commitHead + Chain(c, own.h0, 2) + own.zid + Algorithms(mode) + hvi;
    Commit(own.commitHead, Chain(c, own.h0, 2), own.zid, Algorithms(mode), hvi, Mac(c, Chain(c, own.h0, 1), body))
  }

  function DhPart1Of(c: Crypto, own: Own): Message {
    var body := own.dh1Head + Chain(c, own.h0, 1) + c.publicKey(own.private);
    DhPart1(own.dh1Head, Chain(c, own.h0, 1), c.publicKey(own.private), Mac(c, own.h0, body))
  }

  function DhPart2Of(c: Crypto, own: Own): Message {
    var body := own.dh2Head + Chain(c, own.h0, 1) + c.publicKey(own.private);
    DhPart2(own.dh2Head, Chain(c, own.h0, 1), c.publicKey(own.private), Mac(c, own.h0, body))
  }

  /** The hash value of the initiator, which covers the DHPart2 message one would send and the
      Hello received; in multistream mode a nonce, padded with zeros. */
  function HviOf(c: Crypto, mode: Mode, own: Own, remoteHello: Message): seq<byte>
    requires remoteHello.Hello?
  {
    match mode
    case Dh => c.sha256(Octets(DhPart2Of(c, own)) + Octets(remoteHello))
    case Mult => Prefix(own.nonce, 16) + seq(16, _ => 0)
  }

  // ---------- Commit contention ----------

  /** Octet i, or zero beyond the end. */
  function Octet(h: seq<byte>, i: nat): byte {
    if i < |h| then h[i] else 0
  }

  /** The number whose octets, the least significant one first, are the first n of h. */
  function LittleEndian(h: seq<byte>, n: nat): nat {
    if n == 0 then 0 else Octet(h, n - 1) * Pow2(8 * (n - 1)) + LittleEndian(h, n - 1)
  }

  lemma {:induction false} LittleEndianBound(h: seq<byte>, n: nat)
    ensures LittleEndian(h, n) < Pow2(8 * n)
  {
    if n > 0 {
      LittleEndianBound(h, n - 1);
      Pow2Byte(8 * (n - 1));
      TopDigit(Octet(h, n - 1), Pow2(8 * (n - 1)));
    }
  }

  lemma TopDigit(d: byte, p: nat)
    ensures d * p + p <= 0x100 * p
  {
    ProductLe(d as int + 1, 0x100, p);
  }

  lemma ProductLe(x: int, y: int, p: nat)
    requires x <= y
    ensures x * p <= y * p
  {}

  /** The more significant octet decides. */
  lemma Decides(ours: seq<byte>, theirs: seq<byte>, n: nat)
    requires n > 0 && Octet(ours, n - 1) > Octet(theirs, n - 1)
    ensures LittleEndian(ours, n) > LittleEndian(theirs, n)
  {
    LittleEndianBound(theirs, n - 1);
    var p := Pow2(8 * (n - 1));
    var (x: int, y: int) := (Octet(ours, n - 1), Octet(theirs, n - 1));
    ProductLe(y + 1, x, p);
    assert (y + 1) * p == y * p + p;
  }

  function HviLength(mode: Mode): nat {
    if mode == Mult then 16 else 32
  }

  /** The side with the larger value, read as a little-endian number, stays the initiator; so do
      both sides if the values are equal. */
  predicate Wins(mode: Mode, ours: seq<byte>, theirs: seq<byte>) {
    LittleEndian(ours, HviLength(mode)) >= LittleEndian(theirs, HviLength(mode))
  }

  method AreWeInitiator(mode: Mode, ours: seq<byte>, theirs: seq<byte>) returns (win: bool)
    requires |ours| >= HviLength(mode) && |theirs| >= HviLength(mode)
    ensures win <==> Wins(mode, ours, theirs)
  {
    ghost var n := HviLength(mode);
    var i := if mode == Mult then 15 else 31;
    while i >= 0
      invariant -1 <= i < n
      invariant LittleEndian(ours, n) - LittleEndian(theirs, n) ==
                LittleEndian(ours, i + 1) - LittleEndian(theirs, i + 1)
    {
      if ours[i] > theirs[i] {
        Decides(ours, theirs, i + 1);
        return true;
      } else if ours[i] < theirs[i] {
        Decides(theirs, ours, i + 1);
        return false;
      }
      i := i - 1;
    }
    return true;
  }

  /** Values that differ are told apart, whatever octet they differ in. */
  lemma {:induction false} LittleEndianInjective(a: seq<byte>, b: seq<byte>, n: nat)
    requires n <= |a| && n <= |b| && LittleEndian(a, n) == LittleEndian(b, n)
    ensures a[..n] == b[..n]
  {
    if n > 0 {
      if a[n - 1] > b[n - 1] {
        Decides(a, b, n);
      } else if a[n - 1] < b[n - 1] {
        Decides(b, a, n);
      }
      LittleEndianInjective(a, b, n - 1);
      assert a[..n] == a[..n - 1] + [a[n - 1]] && b[..n] == b[..n - 1] + [b[n - 1]];
    }
  }

  /** Contention has exactly one winner if and only if the values differ. */
  lemma ContentionIsDecided(mode: Mode, ours: seq<byte>, theirs: seq<byte>)
    requires |ours| >= HviLength(mode) && |theirs| >= HviLength(mode)
    ensures (Wins(mode, ours, theirs) <==> !Wins(mode, theirs, ours)) <==>
            ours[..HviLength(mode)] != theirs[..HviLength(mode)]
  {
    var n := HviLength(mode);
    if LittleEndian(ours, n) == LittleEndian(theirs, n) {
      LittleEndianInjective(ours, theirs, n);
    } else if ours[..n] == theirs[..n] {
      SamePrefix(ours, theirs, n, n);
    }
  }

  lemma {:induction false} SamePrefix(a: seq<byte>, b: seq<byte>, k: nat, n: nat)
    requires n <= k && Prefix(a, k) == Prefix(b, k)
    ensures LittleEndian(a, n) == LittleEndian(b, n)
  {
    if n > 0 {
      SamePrefix(a, b, k, n - 1);
      assert Octet(a, n - 1) == Octet(Prefix(a, k), n - 1);
      assert Octet(b, n - 1) == Octet(Prefix(b, k), n - 1);
    }
  }

  /** The number read is larger exactly if the first octet that differs, from the top, is. */
  lemma {:induction false} TopOctetDecides(ours: seq<byte>, theirs: seq<byte>, n: nat)
    ensures LittleEndian(ours, n) > LittleEndian(theirs, n) <==>
            exists k :: 0 <= k < n && Octet(ours, k) > Octet(theirs, k) &&
                        forall i :: k < i < n ==> Octet(ours, i) == Octet(theirs, i)
  {
    if n > 0 {
      if Octet(ours, n - 1) > Octet(theirs, n - 1) {
        Decides(ours, theirs, n);
      } else if Octet(ours, n - 1) < Octet(theirs, n - 1) {
        Decides(theirs, ours, n);
      } else {
        TopOctetDecides(ours, theirs, n - 1);
      }
    }
  }

  /** A side loses if and only if the other's value is the larger in this sense. */
  lemma LosesByTopOctet(mode: Mode, ours: seq<byte>, theirs: seq<byte>)
    ensures var n := if mode == Dh then 32 else 16;
            !Wins(mode, ours, theirs) <==>
            exists k :: 0 <= k < n && Octet(theirs, k) > Octet(ours, k) &&
                        forall i :: k < i < n ==> Octet(theirs, i) == Octet(ours, i)
  {
    hide LittleEndian;
    TopOctetDecides(theirs, ours, HviLength(mode));
  }

  /** The hash tells the two apart. */
  predicate NoCollision(c: Crypto, a: seq<byte>, b: seq<byte>) {
    c.sha256(a) == c.sha256(b) ==> a == b
  }

  lemma SameTail(a: seq<byte>, x: seq<byte>, b: seq<byte>, y: seq<byte>)
    requires a + x == b + y && |x| == |y|
    ensures a == b && x == y
  {
    assert |a| == |b|;
    assert a == (a + x)[..|a|] && x == (a + x)[|a|..];
    assert b == (b + y)[..|b|] && y == (b + y)[|b|..];
  }

  /** The value sent in a Commit commits its sender to its DHPart2 message, and to the Hello it has
      got; in multistream mode, to its nonce. */
  lemma HviBinds(c: Crypto, mode: Mode, own: Own, hello: Message, own': Own, hello': Message)
    requires hello.Hello? && hello'.Hello? && |Octets(hello)| == |Octets(hello')|
    requires |own.nonce| == 16 && |own'.nonce| == 16
    requires NoCollision(c, Octets(DhPart2Of(c, own)) + Octets(hello), Octets(DhPart2Of(c, own')) + Octets(hello'))
    ensures HviOf(c, mode, own, hello) == HviOf(c, mode, own', hello') <==>
            if mode == Dh then
              Octets(DhPart2Of(c, own)) == Octets(DhPart2Of(c, own')) && Octets(hello) == Octets(hello')
            else
              own.nonce == own'.nonce
  {
    hide Octets, Chain, Mac;
    if HviOf(c, mode, own, hello) == HviOf(c, mode, own', hello') {
      if mode == Dh {
        SameTail(Octets(DhPart2Of(c, own)), Octets(hello), Octets(DhPart2Of(c, own')), Octets(hello'));
      } else {
        SameTail(own.nonce, seq(16, _ => 0), own'.nonce, seq(16, _ => 0));
      }
    }
  }

  // ---------- key derivation ----------

  /** ZIDi || ZIDr, as a side in the given role puts it together. */
  function Zids(role: Role, ours: seq<byte>, theirs: seq<byte>): seq<byte> {
    if role == Initiator then ours + theirs else theirs + ours
  }

  /** What a key is derived for; keyLen is in bits. */
  datatype Derivation = Derivation(purpose: string, zids: seq<byte>, totalHash: seq<byte>, keyLen: u32)

  /** The octets that enter the HMAC, in the order of the code. */
  function KdfInput(d: Derivation): seq<byte> {
    [1, 0, 0, 0] + Ascii(d.purpose) + d.zids + d.totalHash + [0] + Be32(d.keyLen)
  }

  /** KDF of section 4.5.2. */
  function Kdf(c: Crypto, s0: seq<byte>, purpose: string, zids: seq<byte>, totalHash: seq<byte>, keyLen: u32): seq<byte>
  {
    Prefix(c.hmac(s0, KdfInput(Derivation(purpose, zids, totalHash, keyLen))), keyLen / 8)
  }

  datatype Keys = Keys(session: seq<byte>, sas: seq<byte>, zrtpI: seq<byte>, zrtpR: seq<byte>, hmacI: seq<byte>,
    hmacR: seq<byte>)

  /** The four messages of a Diffie-Hellman session, or the first two in multistream mode:
      Hello of the responder, Commit of the initiator, DHPart1, DHPart2. */
  function TotalHash(c: Crypto, transcript: seq<byte>): seq<byte> {
    c.sha256(transcript)
  }

  function DhInput(dhResult: seq<byte>, zids: seq<byte>, totalHash: seq<byte>): seq<byte> {
    [0, 0, 0, 1] + dhResult + Ascii("ZRTP-HMAC-KDF") + zids + totalHash + seq(12, _ => 0)
  }

  function DhSecret(c: Crypto, dhResult: seq<byte>, zids: seq<byte>, totalHash: seq<byte>): seq<byte> {
    c.sha256(DhInput(dhResult, zids, totalHash))
  }

  function MultInput(zids: seq<byte>, totalHash: seq<byte>): seq<byte> {
    Ascii("ZRTP MSK") + zids + totalHash + Be32(256)
  }

  function MultSecret(c: Crypto, zids: seq<byte>, totalHash: seq<byte>): seq<byte> {
    c.sha256(MultInput(zids, totalHash))
  }

  function DerivedKeys(c: Crypto, s0: seq<byte>, zids: seq<byte>, totalHash: seq<byte>): Keys {
    Keys(Kdf(c, s0, "ZRTP Session Key", zids, totalHash, 256), Kdf(c, s0, "SAS", zids, totalHash, 256),
         Kdf(c, s0, "Initiator ZRTP key", zids, totalHash, 128), Kdf(c, s0, "Responder ZRTP key", zids, totalHash, 128),
         Kdf(c, s0, "Initiator HMAC key", zids, totalHash, 256), Kdf(c, s0, "Responder HMAC key", zids, totalHash, 256))
  }

  // ---------- Confirm messages ----------

  /** H0 followed by eight octets that are all zero. */
  function Sealed(own: Own): seq<byte> {
    own.h0 + seq(8, _ => 0)
  }

  function Confirm1Of(c: Crypto, keys: Keys, own: Own): Message {
    var encrypted := c.encrypt(keys.zrtpR, own.iv, Sealed(own));
    Confirm1(Mac(c, keys.hmacR, encrypted), own.iv, encrypted)
  }

  function Confirm2Of(c: Crypto, keys: Keys, own: Own): Message {
    var encrypted := c.encrypt(keys.zrtpI, own.iv, Sealed(own));
    Confirm2(Mac(c, keys.hmacI, encrypted), own.iv, encrypted)
  }

  /** The H0 a Confirm message reveals, if its code is right. */
  function OpenConfirm(c: Crypto, keys: Keys, m: Message): Option<seq<byte>>
    requires m.Confirm1? || m.Confirm2?
  {
    var (cipher, mac) := if m.Confirm1? then (keys.zrtpR, keys.hmacR) else (keys.zrtpI, keys.hmacI);
    if Mac(c, mac, m.encrypted) != m.mac then None
    else
      Some(Prefix(c.decrypt(cipher, m.iv, m.encrypted), 32))
  }

  // ---------- validation ----------

  datatype Remote = Remote(zid: seq<byte>, h0: seq<byte>, hello: Option<Message>, commit: Option<Message>,
    dh: Option<Message>)

  predicate Authentic(c: Crypto, key: seq<byte>, m: Message)
    requires m.Hello? || m.Commit? || m.DhPart1? || m.DhPart2?
  {
    m.mac == Mac(c, key, if m.Hello? then Prefix(Body(m), HELLO_MAC_SPAN) else Body(m))
  }

  predicate Kinds(r: Remote) {
    (r.hello.Some? ==> r.hello.value.Hello?) && (r.commit.Some? ==> r.commit.value.Commit?) &&
    (r.dh.Some? ==> r.dh.value.DhPart1? || r.dh.value.DhPart2?)
  }

  /** Every message kept was authenticated by the hash chain that starts at the H0 revealed last. */
  predicate Validates(c: Crypto, role: Role, r: Remote)
    requires Kinds(r) && r.hello.Some? && r.dh.Some? && (role == Responder ==> r.commit.Some?)
  {
    && Authentic(c, Chain(c, r.h0, 2), r.hello.value)
    && (role == Responder ==> Authentic(c, Chain(c, r.h0, 1), r.commit.value))
    && Authentic(c, r.h0, r.dh.value)
  }

  /** The messages of an honest peer validate. */
  lemma HonestValidates(c: Crypto, role: Role, r: Remote, own: Own, mode: Mode, hvi: seq<byte>)
    requires r.h0 == own.h0 && r.hello == Some(HelloOf(c, own))
    requires role == Responder ==> r.commit == Some(CommitOf(c, mode, own, hvi))
    requires r.dh == Some(DhPart1Of(c, own)) || r.dh == Some(DhPart2Of(c, own)) ||
             (r.dh.Some? && (r.dh.value.DhPart1? || r.dh.value.DhPart2?) && Authentic(c, own.h0, r.dh.value))
    requires Kinds(r)
    ensures Validates(c, role, r)
  {
    assert Chain(c, r.h0, 0) == r.h0;
  }

  lemma ConfirmOpens(c: Crypto, keys: Keys, own: Own)
    requires Lawful(c) && |own.h0| == 32
    ensures OpenConfirm(c, keys, Confirm1Of(c, keys, own)) == Some(own.h0)
    ensures OpenConfirm(c, keys, Confirm2Of(c, keys, own)) == Some(own.h0)
  {
    assert Sealed(own)[..32] == own.h0;
  }

  // ---------- SRTP keys ----------

  datatype SrtpKeys = SrtpKeys(ourKey: seq<byte>, ourSalt: seq<byte>, theirKey: seq<byte>, theirSalt: seq<byte>)

  /** The side that responds derives its own salt with the length asked for the other's. */
  function SrtpKeysOf(c: Crypto, role: Role, s0: seq<byte>, zids: seq<byte>, totalHash: seq<byte>,
                      ourKeyLen: u32, theirKeyLen: u32, ourSaltLen: u32, theirSaltLen: u32): SrtpKeys
  {
    if role == Initiator then
      SrtpKeys(Kdf(c, s0, "Initiator SRTP master key", zids, totalHash, ourKeyLen),
               Kdf(c, s0, "Initiator SRTP master salt", zids, totalHash, ourSaltLen),
               Kdf(c, s0, "Responder SRTP master key", zids, totalHash, theirKeyLen),
               Kdf(c, s0, "Responder SRTP master salt", zids, totalHash, theirSaltLen))
    else
      SrtpKeys(Kdf(c, s0, "Responder SRTP master key", zids, totalHash, ourKeyLen),
               Kdf(c, s0, "Responder SRTP master salt", zids, totalHash, theirSaltLen),
               Kdf(c, s0, "Initiator SRTP master key", zids, totalHash, theirKeyLen),
               Kdf(c, s0, "Initiator SRTP master salt", zids, totalHash, theirSaltLen))
  }

  predicate Mirrored(a: SrtpKeys, b: SrtpKeys) {
    a.ourKey == b.theirKey && a.theirKey == b.ourKey && a.ourSalt == b.theirSalt && a.theirSalt == b.ourSalt
  }

  /** A length in bits that a digest can supply in whole octets. */
  predicate KeyLength(n: u32) {
    n <= 256 && n % 8 == 0
  }

  lemma KdfLength(c: Crypto, s0: seq<byte>, purpose: string, zids: seq<byte>, totalHash: seq<byte>, n: u32)
    requires Lawful(c) && KeyLength(n)
    ensures |Kdf(c, s0, purpose, zids, totalHash, n)| == n / 8
  {
    assert |c.hmac(s0, KdfInput(Derivation(purpose, zids, totalHash, n)))| == 32;
  }

  lemma KdfSame(c: Crypto, s0: seq<byte>, purpose: string, zids: seq<byte>, totalHash: seq<byte>, n: u32, m: u32)
    requires Lawful(c) && KeyLength(n) && KeyLength(m)
    ensures Kdf(c, s0, purpose, zids, totalHash, n) == Kdf(c, s0, purpose, zids, totalHash, m) <==> n == m
  {
    KdfLength(c, s0, purpose, zids, totalHash, n);
    KdfLength(c, s0, purpose, zids, totalHash, m);
  }

  /** Sides that agree on the secret hold mirrored keys if and only if the lengths asked for
      match: key lengths crosswise, and every salt length with the responder's length for the
      salt of the other side. */
  lemma SrtpKeysMirror(c: Crypto, s0: seq<byte>, zids: seq<byte>, totalHash: seq<byte>,
                       iOurKey: u32, iTheirKey: u32, iOurSalt: u32, iTheirSalt: u32,
                       rOurKey: u32, rTheirKey: u32, rOurSalt: u32, rTheirSalt: u32)
    requires Lawful(c) && KeyLength(iOurKey) && KeyLength(iTheirKey) && KeyLength(iOurSalt) && KeyLength(iTheirSalt)
    requires KeyLength(rOurKey) && KeyLength(rTheirKey) && KeyLength(rOurSalt) && KeyLength(rTheirSalt)
    ensures Mirrored(SrtpKeysOf(c, Initiator, s0, zids, totalHash, iOurKey, iTheirKey, iOurSalt, iTheirSalt),
                     SrtpKeysOf(c, Responder, s0, zids, totalHash, rOurKey, rTheirKey, rOurSalt, rTheirSalt)) <==>
            iOurKey == rTheirKey && iTheirKey == rOurKey && iOurSalt == rTheirSalt && iTheirSalt == rTheirSalt
  {
    KdfSame(c, s0, "Initiator SRTP master key", zids, totalHash, iOurKey, rTheirKey);
    KdfSame(c, s0, "Responder SRTP master key", zids, totalHash, iTheirKey, rOurKey);
    KdfSame(c, s0, "Initiator SRTP master salt", zids, totalHash, iOurSalt, rTheirSalt);
    KdfSame(c, s0, "Responder SRTP master salt", zids, totalHash, iTheirSalt, rTheirSalt);
  }

  // ---------- keys are separate ----------

  /** Two ZIDs and a hash have the lengths they should have. */
  predicate WellSized(d: Derivation) {
    |d.zids| == 24 && |d.totalHash| == 32
  }

  lemma Be32Injective(x: u32, y: u32)
    requires Be32(x) == Be32(y)
    ensures x == y
  {
    Be32RoundTrip(x, Be32(x), 0);
    Be32RoundTrip(y, Be32(x), 0);
  }

  /** Different derivations never feed the same octets to the HMAC. */
  lemma KdfInputInjective(d: Derivation, e: Derivation)
    requires WellSized(d) && WellSized(e) && KdfInput(d) == KdfInput(e)
    ensures Ascii(d.purpose) == Ascii(e.purpose) && d.(purpose := "") == e.(purpose := "")
  {
    hide Ascii, Be32;
    var (a, b) := ([1, 0, 0, 0] + Ascii(d.purpose), [1, 0, 0, 0] + Ascii(e.purpose));
    SameTail(a + d.zids + d.totalHash + [0], Be32(d.keyLen), b + e.zids + e.totalHash + [0], Be32(e.keyLen));
    SameTail(a + d.zids + d.totalHash, [0], b + e.zids + e.totalHash, [0]);
    SameTail(a + d.zids, d.totalHash, b + e.zids, e.totalHash);
    SameTail(a, d.zids, b, e.zids);
    assert Ascii(d.purpose) == a[4..] && Ascii(e.purpose) == b[4..];
    Be32Injective(d.keyLen, e.keyLen);
  }

  /** ZIDi || ZIDr and the total hash of a session. */
  datatype Context = Context(zids: seq<byte>, totalHash: seq<byte>)

  predicate ContextSized(x: Context) {
    |x.zids| == 24 && |x.totalHash| == 32
  }

  /** What keys are for (RFC 6189 sections 4.5.2 and 4.5.3); those for SRTP are named by the side
      that sends under them. */
  datatype Use =
    | SessionKey
    | Sas
    | ZrtpKey(of: Role)
    | HmacKey(of: Role)
    | SrtpKey(sender: Role)
    | SrtpSalt(sender: Role)

  function Purpose(u: Use): string {
    match u
    case SessionKey => "ZRTP Session Key"
    case Sas => "SAS"
    case ZrtpKey(r) => if r == Initiator then "Initiator ZRTP key" else "Responder ZRTP key"
    case HmacKey(r) => if r == Initiator then "Initiator HMAC key" else "Responder HMAC key"
    case SrtpKey(r) => if r == Initiator then "Initiator SRTP master key" else "Responder SRTP master key"
    case SrtpSalt(r) => if r == Initiator then "Initiator SRTP master salt" else "Responder SRTP master salt"
  }

  function DerivationOf(u: Use, x: Context, n: u32): Derivation {
    Derivation(Purpose(u), x.zids, x.totalHash, n)
  }

  function KeyOf(c: Crypto, s0: seq<byte>, u: Use, x: Context, n: u32): seq<byte> {
    Kdf(c, s0, Purpose(u), x.zids, x.totalHash, n)
  }

  /** The first k octets of the HMAC under s0 tell apart what goes into it for these contexts and
      lengths. */
  ghost predicate Separates(c: Crypto, s0: seq<byte>, k: nat, contexts: set<Context>, lengths: set<u32>) {
    forall u: Use, v: Use, x, y, n, m |
      x in contexts && y in contexts && n in lengths && m in lengths &&
      KdfInput(DerivationOf(u, x, n)) != KdfInput(DerivationOf(v, y, m)) ::
      Prefix(c.hmac(s0, KdfInput(DerivationOf(u, x, n))), k) != Prefix(c.hmac(s0, KdfInput(DerivationOf(v, y, m))), k)
  }

  /** The sessions asked about have well-sized contexts, and no key is shorter than k octets. */
  predicate Asked(k: nat, contexts: set<Context>, lengths: set<u32>) {
    (forall x :: x in contexts ==> ContextSized(x)) && (forall n: u32 :: n in lengths ==> n / 8 >= k)
  }

  function FirstLetter(r: Role): char {
    if r == Initiator then 'I' else 'R'
  }

  /** What tells the purposes apart: length, first letter and letter after the role. */
  lemma PurposeTraits(u: Use)
    ensures var s := Purpose(u);
            match u
            case SessionKey => |s| == 16 && s[0] == 'Z'
            case Sas => |s| == 3 && s[0] == 'S'
            case ZrtpKey(r) => |s| == 18 && s[0] == FirstLetter(r) && s[10] == 'Z'
            case HmacKey(r) => |s| == 18 && s[0] == FirstLetter(r) && s[10] == 'H'
            case SrtpKey(r) => |s| == 25 && s[0] == FirstLetter(r)
            case SrtpSalt(r) => |s| == 26 && s[0] == FirstLetter(r)
  {}

  lemma PurposesDiffer(u: Use, v: Use)
    requires Ascii(Purpose(u)) == Ascii(Purpose(v))
    ensures u == v
  {
    hide Purpose;
    var (a, b) := (Purpose(u), Purpose(v));
    assert |Ascii(a)| == |a| && |Ascii(b)| == |b|;
    PurposeTraits(u);
    PurposeTraits(v);
    assert Ascii(a)[0] == a[0] as int && Ascii(b)[0] == b[0] as int;
    if |a| > 10 {
      assert Ascii(a)[10] == a[10] as int % 0x100 && Ascii(b)[10] == b[10] as int % 0x100;
    }
  }

  lemma PrefixOfPrefix(h: seq<byte>, n: nat, k: nat)
    requires k <= n
    ensures Prefix(Prefix(h, n), k) == Prefix(h, k)
  {}

  /** Keys are the same only if they are for the same use, session and length. */
  lemma KeysAreSeparate(c: Crypto, s0: seq<byte>, k: nat, contexts: set<Context>, lengths: set<u32>,
                        u: Use, x: Context, n: u32, v: Use, y: Context, m: u32)
    requires Separates(c, s0, k, contexts, lengths) && Asked(k, contexts, lengths)
    requires x in contexts && y in contexts && n in lengths && m in lengths
    ensures KeyOf(c, s0, u, x, n) == KeyOf(c, s0, v, y, m) <==> u == v && x == y && n == m
  {
    hide Purpose, KdfInput, Prefix;
    var (d, e) := (DerivationOf(u, x, n), DerivationOf(v, y, m));
    PrefixOfPrefix(c.hmac(s0, KdfInput(d)), n / 8, k);
    PrefixOfPrefix(c.hmac(s0, KdfInput(e)), m / 8, k);
    if KeyOf(c, s0, u, x, n) == KeyOf(c, s0, v, y, m) {
      KdfInputInjective(d, e);
      PurposesDiffer(u, v);
    }
  }

  // What the SRTP keys are

  datatype Output = OurKey | OurSalt | TheirKey | TheirSalt

  datatype Lengths = Lengths(ourKey: u32, theirKey: u32, ourSalt: u32, theirSalt: u32)

  function SrtpKeysFor(c: Crypto, role: Role, s0: seq<byte>, x: Context, l: Lengths): SrtpKeys {
    SrtpKeysOf(c, role, s0, x.zids, x.totalHash, l.ourKey, l.theirKey, l.ourSalt, l.theirSalt)
  }

  function Pick(keys: SrtpKeys, o: Output): seq<byte> {
    match o
    case OurKey => keys.ourKey
    case OurSalt => keys.ourSalt
    case TheirKey => keys.theirKey
    case TheirSalt => keys.theirSalt
  }

  /** Ours is what we send under, theirs what the other side does. */
  function UseOf(role: Role, o: Output): Use {
    match o
    case OurKey => SrtpKey(role)
    case OurSalt => SrtpSalt(role)
    case TheirKey => SrtpKey(Opposite(role))
    case TheirSalt => SrtpSalt(Opposite(role))
  }

  function LengthOf(role: Role, l: Lengths, o: Output): u32 {
    match o
    case OurKey => l.ourKey
    case OurSalt => if role == Initiator then l.ourSalt else l.theirSalt
    case TheirKey => l.theirKey
    case TheirSalt => l.theirSalt
  }

  lemma OutputIs(c: Crypto, role: Role, s0: seq<byte>, x: Context, l: Lengths, o: Output)
    ensures Pick(SrtpKeysFor(c, role, s0, x, l), o) == KeyOf(c, s0, UseOf(role, o), x, LengthOf(role, l, o))
  {
    hide Kdf;
  }

  predicate LengthsIn(l: Lengths, lengths: set<u32>) {
    l.ourKey in lengths && l.theirKey in lengths && l.ourSalt in lengths && l.theirSalt in lengths
  }

  /** Two of the keys and salts that sessions with one secret yield, in either role, are the same
      if and only if they are for the same direction of the same session, both keys or both
      salts, and equally long. */
  lemma SrtpKeysAreSeparate(c: Crypto, s0: seq<byte>, k: nat, contexts: set<Context>, lengths: set<u32>,
                            role: Role, x: Context, l: Lengths, o: Output,
                            role': Role, x': Context, l': Lengths, o': Output)
    requires Separates(c, s0, k, contexts, lengths) && Asked(k, contexts, lengths)
    requires x in contexts && x' in contexts && LengthsIn(l, lengths) && LengthsIn(l', lengths)
    ensures Pick(SrtpKeysFor(c, role, s0, x, l), o) == Pick(SrtpKeysFor(c, role', s0, x', l'), o') <==>
            x == x' && UseOf(role, o) == UseOf(role', o') && LengthOf(role, l, o) == LengthOf(role', l', o')
  {
    hide Separates, Asked, KeyOf, SrtpKeysFor;
    OutputIs(c, role, s0, x, l, o);
    OutputIs(c, role', s0, x', l', o');
    KeysAreSeparate(c, s0, k, contexts, lengths, UseOf(role, o), x, LengthOf(role, l, o),
                    UseOf(role', o'), x', LengthOf(role', l', o'));
  }

  /** No two of the four are the same, in either role, so that the directions never share a key. */
  lemma SrtpKeysDiffer(c: Crypto, s0: seq<byte>, k: nat, role: Role, x: Context, l: Lengths)
    requires Separates(c, s0, k, {x}, {l.ourKey, l.theirKey, l.ourSalt, l.theirSalt})
    requires Asked(k, {x}, {l.ourKey, l.theirKey, l.ourSalt, l.theirSalt})
    ensures var keys := SrtpKeysFor(c, role, s0, x, l);
            keys.ourKey != keys.theirKey && keys.ourSalt != keys.theirSalt && keys.ourKey != keys.ourSalt &&
            keys.ourKey != keys.theirSalt && keys.theirKey != keys.ourSalt && keys.theirKey != keys.theirSalt
  {
    hide Separates, Asked, SrtpKeysFor, LengthOf;
    var keys := SrtpKeysFor(c, role, s0, x, l);
    forall o, o' | o != o'
      ensures Pick(keys, o) != Pick(keys, o')
    {
      SrtpKeysAreSeparate(c, s0, k, {x}, {l.ourKey, l.theirKey, l.ourSalt, l.theirSalt}, role, x, l, o,
                          role, x, l, o');
    }
    assert Pick(keys, OurKey) == keys.ourKey && Pick(keys, OurSalt) == keys.ourSalt;
    assert Pick(keys, TheirKey) == keys.theirKey && Pick(keys, TheirSalt) == keys.theirSalt;
  }

  // What the derived keys are

  predicate IsDerived(u: Use) {
    !u.SrtpKey? && !u.SrtpSalt?
  }

  function PickDerived(keys: Keys, u: Use): seq<byte>
    requires IsDerived(u)
  {
    match u
    case SessionKey => keys.session
    case Sas => keys.sas
    case ZrtpKey(r) => if r == Initiator then keys.zrtpI else keys.zrtpR
    case HmacKey(r) => if r == Initiator then keys.hmacI else keys.hmacR
  }

  function DerivedLength(u: Use): u32 {
    if u.ZrtpKey? then 128 else 256
  }

  lemma DerivedIs(c: Crypto, s0: seq<byte>, x: Context, u: Use)
    requires IsDerived(u)
    ensures PickDerived(DerivedKeys(c, s0, x.zids, x.totalHash), u) == KeyOf(c, s0, u, x, DerivedLength(u))
  {
    hide Kdf;
  }

  /** So it is with the six keys derived after the exchange: keys of sessions with one secret are
      the same if and only if they are for the same use in the same session. */
  lemma DerivedKeysAreSeparate(c: Crypto, s0: seq<byte>, k: nat, contexts: set<Context>, x: Context, u: Use,
                               x': Context, u': Use)
    requires Separates(c, s0, k, contexts, {128, 256}) && Asked(k, contexts, {128, 256})
    requires x in contexts && x' in contexts && IsDerived(u) && IsDerived(u')
    ensures var (a, b) := (DerivedKeys(c, s0, x.zids, x.totalHash), DerivedKeys(c, s0, x'.zids, x'.totalHash));
            PickDerived(a, u) == PickDerived(b, u') <==> x == x' && u == u'
  {
    hide Separates, Asked, KeyOf, PickDerived, DerivedKeys;
    DerivedIs(c, s0, x, u);
    DerivedIs(c, s0, x', u');
    KeysAreSeparate(c, s0, k, contexts, {128, 256}, u, x, DerivedLength(u), u', x', DerivedLength(u'));
  }

  // What the secret is bound to

  /** Sessions share a secret only if they have Diffie-Hellman result, ZIDs and total hash in
      common. */
  lemma DhSecretBinds(c: Crypto, result: seq<byte>, x: Context, result': seq<byte>, x': Context)
    requires ContextSized(x) && ContextSized(x')
    requires NoCollision(c, DhInput(result, x.zids, x.totalHash), DhInput(result', x'.zids, x'.totalHash))
    ensures DhSecret(c, result, x.zids, x.totalHash) == DhSecret(c, result', x'.zids, x'.totalHash) <==>
            result == result' && x == x'
  {
    hide Ascii;
    var zeros: seq<byte> := seq(12, _ => 0);
    if DhInput(result, x.zids, x.totalHash) == DhInput(result', x'.zids, x'.totalHash) {
      var (a, b) := ([0, 0, 0, 1] + result, [0, 0, 0, 1] + result');
      var name := Ascii("ZRTP-HMAC-KDF");
      SameTail(a + name + x.zids + x.totalHash, zeros, b + name + x'.zids + x'.totalHash, zeros);
      SameTail(a + name + x.zids, x.totalHash, b + name + x'.zids, x'.totalHash);
      SameTail(a + name, x.zids, b + name, x'.zids);
      SameTail(a, name, b, name);
      assert result == a[4..] && result' == b[4..];
    }
  }

  lemma MultSecretBinds(c: Crypto, x: Context, x': Context)
    requires ContextSized(x) && ContextSized(x')
    requires NoCollision(c, MultInput(x.zids, x.totalHash), MultInput(x'.zids, x'.totalHash))
    ensures MultSecret(c, x.zids, x.totalHash) == MultSecret(c, x'.zids, x'.totalHash) <==> x == x'
  {
    hide Ascii, Be32;
    if MultInput(x.zids, x.totalHash) == MultInput(x'.zids, x'.totalHash) {
      var name := Ascii("ZRTP MSK");
      SameTail(name + x.zids + x.totalHash, Be32(256), name + x'.zids + x'.totalHash, Be32(256));
      SameTail(name + x.zids, x.totalHash, name + x'.zids, x'.totalHash);
      SameTail(name, x.zids, name, x'.zids);
    }
  }
}
