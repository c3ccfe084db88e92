// Apple's SRP exchange: the client side of RFC 5054 with the RFC 2945 proofs, and
// an honest server to hold it against. SHA-256, PBKDF2 and base64 are parameters.
module Srp {
  import opened Core
  import opened ModularArithmetic

  const GROUP_SIZE_BYTES: nat := 256
  const GROUP_GENERATOR: nat := 2
  const GROUP_MODULUS: nat :=
    0xAC6BDB41324A9A9BF166DE5E1389582FAF72B6651987EE07FC3192943DB56050A37329CBB4A099ED8193E0757767A13DD52312AB4B03310DCD7F48A9DA04FD50E8083969EDB767B0CF6095179A163AB3661A05FBD5FAAAE82918A9962F0B93B855F97993EC975EEAA80D740ADBF4FF747359D041D5C33EA71D281E446B14773BCA97B43A23FB801676BD207A436C6481F1D2B9078717461A5B9D32E688F87748544523B524B0D57D5EA77A2775D2ECFA032CFBDBF52FB3786160279004E57AE6AF874E7303CE53299CCC041C7BC308D82A5698F3A8D0C38271AE35F8E9DBFBB694B5C803D89F7AE435DE236D525F54759B65E372FCD68EF20FA7111F9E4AFF73

  datatype Group = Group(n: nat, generator: nat)

  const APPLE_GROUP := Group(GROUP_MODULUS, GROUP_GENERATOR)

  type byte = x: int | 0 <= x < 256

  // ---- big-endian integers ----

  function FromBytes(bytes: seq<byte>): nat {
    if bytes == [] then 0
    else FromBytes(bytes[..|bytes| - 1]) * 256 + bytes[|bytes| - 1]
  }

  function Digits(n: nat): seq<byte> {
    if n == 0 then [] else Digits(n / 256) + [n % 256]
  }

  /** Minimal big-endian form; zero is one zero byte. */
  function ToBytes(n: nat): seq<byte> {
    if n == 0 then [0] else Digits(n)
  }

  function Zeros(k: nat): (r: seq<byte>)
    ensures |r| == k
  {
    seq(k, _ => 0)
  }

  /** PAD of section 2.1 of RFC 5054; a value wider than the group is left alone. */
  function Pad(value: nat): seq<byte> {
    var bytes := ToBytes(value);
    if |bytes| >= GROUP_SIZE_BYTES then bytes
    else Zeros(GROUP_SIZE_BYTES - |bytes|) + bytes
  }

  lemma {:induction false} DigitsDecode(n: nat)
    ensures FromBytes(Digits(n)) == n
  {
    if n > 0 {
      DigitsDecode(n / 256);
      assert Digits(n)[..|Digits(n)| - 1] == Digits(n / 256);
    }
  }

  lemma {:induction false} DigitsFit(n: nat, k: nat)
    requires n < Pow(256, k)
    ensures |Digits(n)| <= k
  {
    if n > 0 {
      assert k > 0 && n / 256 < Pow(256, k - 1);
      DigitsFit(n / 256, k - 1);
    }
  }

  lemma {:induction false} LeadingZeros(k: nat, bytes: seq<byte>)
    ensures FromBytes(Zeros(k) + bytes) == FromBytes(bytes)
  {
    var all := Zeros(k) + bytes;
    if bytes != [] {
      assert all[..|all| - 1] == Zeros(k) + bytes[..|bytes| - 1];
      LeadingZeros(k, bytes[..|bytes| - 1]);
    } else if k > 0 {
      assert all[..|all| - 1] == Zeros(k - 1) + [];
      LeadingZeros(k - 1, []);
    }
  }

  /** The wire form loses nothing, padded or not, whatever the size of the integer. */
  lemma BytesDecode(n: nat)
    ensures FromBytes(ToBytes(n)) == n && FromBytes(Pad(n)) == n
  {
    DigitsDecode(n);
    assert FromBytes([0]) == 0 by { assert [0][..0] == []; }
    LeadingZeros(if |ToBytes(n)| < GROUP_SIZE_BYTES then GROUP_SIZE_BYTES - |ToBytes(n)| else 0, ToBytes(n));
  }

  lemma PadWidth(n: nat)
    requires n < Pow(256, GROUP_SIZE_BYTES)
    ensures |Pad(n)| == GROUP_SIZE_BYTES
  {
    DigitsFit(n, GROUP_SIZE_BYTES);
  }

  /** With the client's key in range, PAD(A) | PAD(B) determines both keys, even for
      an oversized server key. */
  lemma PaddedPairDetermined(a: nat, b: nat, a': nat, b': nat)
    requires a < Pow(256, GROUP_SIZE_BYTES) && a' < Pow(256, GROUP_SIZE_BYTES)
    requires Pad(a) + Pad(b) == Pad(a') + Pad(b')
    ensures a == a' && b == b'
  {
    PadWidth(a);
    PadWidth(a');
    assert Pad(a) == (Pad(a) + Pad(b))[..GROUP_SIZE_BYTES] == Pad(a');
    assert Pad(b) == (Pad(a) + Pad(b))[GROUP_SIZE_BYTES..] == Pad(b');
    BytesDecode(a);
    BytesDecode(a');
    BytesDecode(b);
    BytesDecode(b');
  }

  /** Residues of the group always fit the padding. */
  lemma GroupFitsPadding()
    ensures 1 < GROUP_MODULUS < Pow(256, GROUP_SIZE_BYTES)
  {
    PowAdd(256, 1, 1);
    PowAdd(256, 2, 2);
    PowAdd(256, 4, 4);
    PowAdd(256, 8, 8);
    PowAdd(256, 16, 16);
    PowAdd(256, 32, 32);
    PowAdd(256, 64, 64);
    PowAdd(256, 128, 128);
  }

  // ---- the key agreement ----

  function PublicKey(g: Group, privateKey: nat): nat
    requires g.n > 1
  {
    ModPow(g.generator, privateKey, g.n)
  }

  /** The server's key with the masked verifier taken off again. The subtraction is on
      unsigned integers, so its type here is `nat`. */
  function UnmaskedKey(n: nat, serverPublic: nat, masked: nat): nat
    requires n > 1
  {
    var difference: nat := (n + serverPublic) - masked % n;
    difference % n
  }

  function ClientSecret(g: Group, privateKey: nat, serverPublic: nat, multiplier: nat, scrambling: nat, x: nat): nat
    requires g.n > 1
  {
    var verifier := ModPow(g.generator, x, g.n);
    ModPow(UnmaskedKey(g.n, serverPublic, multiplier * verifier), privateKey + scrambling * x, g.n)
  }

  /** The server's public key, from section 2.5.3 of RFC 5054. */
  function ServerPublicKey(g: Group, multiplier: nat, verifier: nat, b: nat): nat
    requires g.n > 1
  {
    (multiplier * verifier + ModPow(g.generator, b, g.n)) % g.n
  }

  /** The server's secret, from section 2.6 of RFC 5054. */
  function ServerSecret(g: Group, clientPublic: nat, verifier: nat, scrambling: nat, b: nat): nat
    requires g.n > 1
  {
    ModPow(clientPublic * ModPow(verifier, scrambling, g.n), b, g.n)
  }

  /** Taking k * v off B leaves g^b. */
  lemma UnmaskedKeyIsPower(n: nat, serverPublic: nat, masked: nat, key: int)
    requires n > 1 && serverPublic % n == (masked + key) % n
    ensures UnmaskedKey(n, serverPublic, masked) % n == key % n
  {
    SubtractResidue(n, serverPublic, masked, key);
    ResidueIdempotent((n + serverPublic) - masked % n, n);
  }

  lemma ClientSecretValue(g: Group, a: nat, b: nat, x: nat, u: nat, k: nat, serverPublic: nat)
    requires g.n > 1
    requires serverPublic % g.n == (k * ModPow(g.generator, x, g.n) + Pow(g.generator, b)) % g.n
    ensures ClientSecret(g, a, serverPublic, k, u, x) == Pow(Pow(g.generator, b), a + u * x) % g.n
  {
    UnmaskedKeyIsPower(g.n, serverPublic, k * ModPow(g.generator, x, g.n), Pow(g.generator, b));
    CongruentPow(UnmaskedKey(g.n, serverPublic, k * ModPow(g.generator, x, g.n)), Pow(g.generator, b), a + u * x, g.n);
  }

  lemma ServerSecretValue(g: Group, a: nat, b: nat, x: nat, u: nat)
    requires g.n > 1
    ensures ServerSecret(g, PublicKey(g, a), ModPow(g.generator, x, g.n), u, b)
         == Pow(Pow(g.generator, a + x * u), b) % g.n
  {
    var n := g.n;
    var publicKey := PublicKey(g, a);
    var verifier := ModPow(g.generator, x, n);
    ResidueIdempotent(Pow(g.generator, a), n);
    ResidueIdempotent(Pow(g.generator, x), n);
    ResidueIdempotent(Pow(verifier, u), n);
    CongruentPow(verifier, Pow(g.generator, x), u, n);
    PowTimes(g.generator, x, u);
    CongruentTimes(publicKey, Pow(g.generator, a), ModPow(verifier, u, n), Pow(g.generator, x * u), n);
    PowAdd(g.generator, a, x * u);
    CongruentPow(publicKey * ModPow(verifier, u, n), Pow(g.generator, a + x * u), b, n);
  }

  lemma ExponentsAgree(a: nat, b: nat, u: nat, x: nat)
    ensures b * (a + u * x) == (a + x * u) * b >= 0
  {
  }

  /** Client and honest server reach the same secret, in every group. */
  lemma SecretsAgree(g: Group, a: nat, b: nat, x: nat, u: nat, k: nat, serverPublic: nat)
    requires g.n > 1
    requires serverPublic % g.n == (k * ModPow(g.generator, x, g.n) + Pow(g.generator, b)) % g.n
    ensures ClientSecret(g, a, serverPublic, k, u, x)
         == ServerSecret(g, PublicKey(g, a), ModPow(g.generator, x, g.n), u, b)
  {
    ClientSecretValue(g, a, b, x, u, k, serverPublic);
    ServerSecretValue(g, a, b, x, u);
    ExponentsAgree(a, b, u, x);
    PowTimes(g.generator, b, a + u * x);
    PowTimes(g.generator, a + x * u, b);
  }

  /** The key an honest server publishes meets the agreement's hypothesis. */
  lemma HonestPublicKey(g: Group, multiplier: nat, verifier: nat, b: nat)
    requires g.n > 1
    ensures ServerPublicKey(g, multiplier, verifier, b) % g.n == (multiplier * verifier + Pow(g.generator, b)) % g.n
  {
    ResidueIdempotent(Pow(g.generator, b), g.n);
    CongruentAdd(multiplier * verifier, multiplier * verifier, ModPow(g.generator, b, g.n), Pow(g.generator, b), g.n);
    ResidueIdempotent(multiplier * verifier + ModPow(g.generator, b, g.n), g.n);
  }

  lemma PublicKeyReduced(g: Group, multiplier: nat, verifier: nat, b: nat)
    requires g.n > 1
    ensures ServerPublicKey(g, multiplier, verifier, b) % g.n == ServerPublicKey(g, multiplier, verifier, b)
  {
    ResidueIdempotent(multiplier * verifier + ModPow(g.generator, b, g.n), g.n);
  }

  lemma HonestSecretsAgree(g: Group, a: nat, b: nat, x: nat, u: nat, k: nat)
    requires g.n > 1
    ensures
      var verifier := ModPow(g.generator, x, g.n);
      ClientSecret(g, a, ServerPublicKey(g, k, verifier, b), k, u, x)
      == ServerSecret(g, PublicKey(g, a), verifier, u, b)
  {
    var verifier := ModPow(g.generator, x, g.n);
    HonestPublicKey(g, k, verifier, b);
    SecretsAgree(g, a, b, x, u, k, ServerPublicKey(g, k, verifier, b));
  }

  // ---- hashing ----

  /** The algorithms the exchange is built on, and base64 transport. */
  datatype Primitives = Primitives(
    sha256: seq<byte> -> seq<byte>,
    pbkdf2: (seq<byte>, seq<byte>, nat) -> seq<byte>,
    encode: seq<byte> -> string,
    decode: string -> Option<seq<byte>>)

  ghost predicate DecodesWhatItEncodes(p: Primitives) {
    forall bytes :: p.decode(p.encode(bytes)) == Some(bytes)
  }

  function Concat(parts: seq<seq<byte>>): seq<byte> {
    if parts == [] then [] else Concat(parts[..|parts| - 1]) + parts[|parts| - 1]
  }

  /** Feeding the parts to the digest one at a time hashes their concatenation. */
  method HashParts(p: Primitives, parts: seq<seq<byte>>) returns (digest: seq<byte>)
    ensures digest == p.sha256(Concat(parts))
  {
    var fed: seq<byte> := [];
    for i := 0 to |parts|
      invariant fed == Concat(parts[..i])
    {
      assert parts[..i + 1][..i] == parts[..i];
      fed := fed + parts[i];
    }
    assert parts[..|parts|] == parts;
    digest := p.sha256(fed);
  }

  function HexDigit(n: int): byte
    requires 0 <= n < 16
  {
    if n < 10 then '0' as int + n else 'a' as int + n - 10
  }

  function HexValue(b: byte): int {
    if b < 'a' as int then b - '0' as int else b - 'a' as int + 10
  }

  /** Reads pairs of hexadecimal digits back into bytes. */
  function FromHex(text: seq<byte>): seq<int> {
    if |text| < 2 then [] else [HexValue(text[0]) * 16 + HexValue(text[1])] + FromHex(text[2..])
  }

  lemma {:induction false} FromHexAppend(front: seq<byte>, high: byte, low: byte)
    requires |front| % 2 == 0
    ensures FromHex(front + [high, low]) == FromHex(front) + [HexValue(high) * 16 + HexValue(low)]
  {
    var all := front + [high, low];
    if front == [] {
      assert all[2..] == [];
    } else {
      assert all[2..] == front[2..] + [high, low];
      FromHexAppend(front[2..], high, low);
    }
  }

  /** Two lowercase digits a byte, from which the bytes can be read back. */
  method LowercaseHex(bytes: seq<byte>) returns (encoded: seq<byte>)
    ensures encoded == Hex(bytes)
    ensures |encoded| == 2 * |bytes| && FromHex(encoded) == bytes
    ensures forall i | 0 <= i < |encoded| ::
        '0' as int <= encoded[i] <= '9' as int || 'a' as int <= encoded[i] <= 'f' as int
  {
    encoded := [];
    for i := 0 to |bytes|
      invariant encoded == Hex(bytes[..i])
      invariant |encoded| == 2 * i && FromHex(encoded) == bytes[..i]
      invariant forall j | 0 <= j < |encoded| ::
          '0' as int <= encoded[j] <= '9' as int || 'a' as int <= encoded[j] <= 'f' as int
    {
      var high, low := HexDigit(bytes[i] / 16), HexDigit(bytes[i] % 16);
      FromHexAppend(encoded, high, low);
      assert bytes[..i + 1][..i] == bytes[..i];
      encoded := encoded + [high, low];
    }
    assert bytes[..|bytes|] == bytes;
  }

  function Hex(bytes: seq<byte>): seq<byte> {
    if bytes == [] then []
    else
      var last := bytes[|bytes| - 1];
      Hex(bytes[..|bytes| - 1]) + [HexDigit(last / 16), HexDigit(last % 16)]
  }

  function XorByte(left: byte, right: byte): byte {
    ((left as bv8) ^ (right as bv8)) as int
  }

  /** As far as both reach. */
  function Xor(left: seq<byte>, right: seq<byte>): seq<byte> {
    seq(Min(|left|, |right|), i requires 0 <= i < Min(|left|, |right|) => XorByte(left[i], right[i]))
  }

  lemma BitsOfXor(left: byte, right: byte)
    ensures XorByte(left, right) as bv8 == (left as bv8) ^ (right as bv8)
  {
    var bits := (left as bv8) ^ (right as bv8);
    assert (bits as int) as bv8 == bits;
  }

  lemma MaskTwice(x: bv8, y: bv8)
    ensures (x ^ y) ^ y == x
  {
  }

  /** Masking twice with the same bytes gives back the bits of what was masked. */
  lemma XorUndoes(left: seq<byte>, right: seq<byte>)
    requires |left| == |right|
    ensures |Xor(left, right)| == |left|
    ensures forall i | 0 <= i < |left| :: Xor(Xor(left, right), right)[i] as bv8 == left[i] as bv8
  {
    forall i | 0 <= i < |left| ensures Xor(Xor(left, right), right)[i] as bv8 == left[i] as bv8 {
      BitsOfXor(left[i], right[i]);
      BitsOfXor(Xor(left, right)[i], right[i]);
      MaskTwice(left[i] as bv8, right[i] as bv8);
    }
  }

  // ---- the exchange ----

  datatype SrpError =
    | Undecodable
    | ZeroServerKey
    | UnsupportedProtocol(protocol: string)
    | ZeroScrambling

  datatype Client = Client(username: seq<byte>, privateKey: nat, publicKey: nat)

  datatype InitResponse = InitResponse(iteration: nat, salt: string, protocol: string, b: string, c: string)

  datatype Proof = Proof(
    accountName: seq<byte>, c: string, m1: string, m2: string, rememberMe: bool, trustTokens: seq<string>)

  function WithPrivateKey(g: Group, username: seq<byte>, key: seq<byte>): Client
    requires g.n > 1
  {
    var privateKey := FromBytes(key);
    Client(username, privateKey, PublicKey(g, privateKey))
  }

  function PasswordHash(p: Primitives, password: seq<byte>, protocol: string): Option<seq<byte>> {
    if protocol == "s2k" then Some(p.sha256(password))
    else if protocol == "s2k_fo" then Some(Hex(p.sha256(password)))
    else None
  }

  /** The private exponent x, from the salt and the hashed password. */
  function PrivateExponent(p: Primitives, salt: seq<byte>, passwordHash: seq<byte>, iteration: nat): nat {
    var identity: seq<byte> := p.sha256([':' as int] + p.pbkdf2(passwordHash, salt, iteration));
    FromBytes(p.sha256(salt + identity))
  }

  function Multiplier(p: Primitives, g: Group): nat {
    FromBytes(p.sha256(ToBytes(g.n) + Pad(g.generator)))
  }

  function Scrambling(p: Primitives, clientPublic: nat, serverPublic: nat): nat {
    FromBytes(p.sha256(Pad(clientPublic) + Pad(serverPublic)))
  }

  function ClientEvidence(p: Primitives, g: Group, username: seq<byte>, salt: seq<byte>,
                          clientPublic: nat, serverPublic: nat, sessionKey: seq<byte>): seq<byte> {
    p.sha256(
      Xor(p.sha256(ToBytes(g.n)), p.sha256(Pad(g.generator))) + p.sha256(username) + salt
      + ToBytes(clientPublic) + ToBytes(serverPublic) + sessionKey)
  }

  function ServerEvidence(p: Primitives, clientPublic: nat, m1: seq<byte>, sessionKey: seq<byte>): seq<byte> {
    p.sha256(ToBytes(clientPublic) + m1 + sessionKey)
  }

  /** Both proofs, M1 and M2, from one shared secret. */
  function Evidence(p: Primitives, g: Group, username: seq<byte>, salt: seq<byte>,
                    clientPublic: nat, serverPublic: nat, secret: nat): (seq<byte>, seq<byte>) {
    var sessionKey := p.sha256(ToBytes(secret));
    var m1 := ClientEvidence(p, g, username, salt, clientPublic, serverPublic, sessionKey);
    (m1, ServerEvidence(p, clientPublic, m1, sessionKey))
  }

  function TokenList(trustToken: Option<string>): seq<string> {
    match trustToken
    case Some(token) => [token]
    case None => []
  }

  function MakeProof(p: Primitives, g: Group, client: Client, password: seq<byte>, response: InitResponse,
                     trustToken: Option<string>): Result<Proof, SrpError>
    requires g.n > 1
  {
    if p.decode(response.salt).None? || p.decode(response.b).None? then Err(Undecodable)
    else
      var salt := p.decode(response.salt).value;
      var serverPublic := FromBytes(p.decode(response.b).value);
      if serverPublic % g.n == 0 then Err(ZeroServerKey)
      else
        match PasswordHash(p, password, response.protocol)
        case None => Err(UnsupportedProtocol(response.protocol))
        case Some(passwordHash) =>
          var scrambling := Scrambling(p, client.publicKey, serverPublic);
          if scrambling == 0 then Err(ZeroScrambling)
          else
            var x := PrivateExponent(p, salt, passwordHash, response.iteration);
            var secret := ClientSecret(g, client.privateKey, serverPublic, Multiplier(p, g), scrambling, x);
            var (m1, m2) := Evidence(p, g, client.username, salt, client.publicKey, serverPublic, secret);
            Ok(Proof(client.username, response.c, p.encode(m1), p.encode(m2), true,
                     TokenList(trustToken)))
  }

  // ---- an honest server ----

  const HEX_DIGITS := "0123456789abcdef"

  /** The text spells the bytes, two lowercase hexadecimal digits each. */
  ghost predicate Spells(text: seq<byte>, bytes: seq<byte>) {
    && |text| == 2 * |bytes|
    && forall i | 0 <= i < |bytes| ::
         && text[2 * i] == HEX_DIGITS[bytes[i] / 16] as int
         && text[2 * i + 1] == HEX_DIGITS[bytes[i] % 16] as int
  }

  /** What a protocol feeds PBKDF2 as the password: the digest, or the text that spells it. */
  ghost predicate PasswordInput(p: Primitives, protocol: string, password: seq<byte>, input: seq<byte>) {
    || (protocol == "s2k" && input == p.sha256(password))
    || (protocol == "s2k_fo" && Spells(input, p.sha256(password)))
  }

  /** What an honest server keeps about an account and one login attempt. */
  datatype Server = Server(username: seq<byte>, salt: seq<byte>, iteration: nat, protocol: string, verifier: nat,
                           b: nat)

  /** The verifier v = g^x with x = H(salt | H(":" | PBKDF2(password))). */
  function VerifierFrom(p: Primitives, g: Group, server: Server, input: seq<byte>): int
    requires g.n > 1
  {
    var identity := p.sha256([58] + p.pbkdf2(input, server.salt, server.iteration));
    Pow(g.generator, FromBytes(p.sha256(server.salt + identity))) % g.n
  }

  /** Enrolment: the server stores a verifier, never the password. */
  ghost predicate Enrolled(p: Primitives, g: Group, password: seq<byte>, server: Server)
    requires g.n > 1
  {
    exists input: seq<byte> ::
      PasswordInput(p, server.protocol, password, input) && server.verifier == VerifierFrom(p, g, server, input)
  }

  /** The server's key B, with k = H(N | PAD(g)). */
  function PublicKeyOf(p: Primitives, g: Group, server: Server): nat
    requires g.n > 1
  {
    ServerPublicKey(g, FromBytes(p.sha256(ToBytes(g.n) + Pad(g.generator))), server.verifier, server.b)
  }

  function Challenge(p: Primitives, g: Group, server: Server, c: string): InitResponse
    requires g.n > 1
  {
    InitResponse(server.iteration, p.encode(server.salt), server.protocol, p.encode(ToBytes(PublicKeyOf(p, g, server))),
                 c)
  }

  /** The scrambling parameter u = H(PAD(A) | PAD(B)) as the server computes it. */
  function ScramblingOf(p: Primitives, g: Group, server: Server, clientPublic: nat): nat
    requires g.n > 1
  {
    FromBytes(p.sha256(Pad(clientPublic) + Pad(PublicKeyOf(p, g, server))))
  }

  /** The two proofs of RFC 2945 as the server computes them, from the verifier and the client's
      key: M1 = H(H(N) xor H(PAD(g)) | H(I) | salt | A | B | K) and M2 = H(A | M1 | K). */
  function ExpectedProofs(p: Primitives, g: Group, server: Server, clientPublic: nat): (seq<byte>, seq<byte>)
    requires g.n > 1
  {
    var secret := ServerSecret(g, clientPublic, server.verifier, ScramblingOf(p, g, server, clientPublic), server.b);
    var key := p.sha256(ToBytes(secret));
    var m1 := p.sha256(
      Xor(p.sha256(ToBytes(g.n)), p.sha256(Pad(g.generator))) + p.sha256(server.username) + server.salt
      + ToBytes(clientPublic) + ToBytes(PublicKeyOf(p, g, server)) + key);
    (m1, p.sha256(ToBytes(clientPublic) + m1 + key))
  }

  lemma SpellsOneMore(text: seq<byte>, front: seq<byte>, last: byte)
    requires Spells(text, front)
    ensures Spells(text + [HexDigit(last / 16), HexDigit(last % 16)], front + [last])
  {
    var bytes := front + [last];
    var longer := text + [HexDigit(last / 16), HexDigit(last % 16)];
    forall i | 0 <= i < |bytes|
      ensures longer[2 * i] == HEX_DIGITS[bytes[i] / 16] as int
      ensures longer[2 * i + 1] == HEX_DIGITS[bytes[i] % 16] as int
    {
      if i < |front| {
        assert bytes[i] == front[i];
      }
    }
  }

  lemma {:induction false} HexSpells(bytes: seq<byte>)
    ensures Spells(Hex(bytes), bytes)
  {
    if bytes != [] {
      var front, last := bytes[..|bytes| - 1], bytes[|bytes| - 1];
      assert bytes == front + [last];
      HexSpells(front);
      SpellsOneMore(Hex(front), front, last);
    }
  }

  lemma SpellingUnique(text: seq<byte>, other: seq<byte>, bytes: seq<byte>)
    requires Spells(text, bytes) && Spells(other, bytes)
    ensures text == other
  {
    forall j | 0 <= j < |text| ensures text[j] == other[j] {
      var i := j / 2;
      assert text[2 * i] == other[2 * i] && text[2 * i + 1] == other[2 * i + 1];
    }
  }

  /** The client feeds PBKDF2 what the protocol asks for, and supports exactly the two. */
  lemma PasswordHashed(p: Primitives, password: seq<byte>, protocol: string, input: seq<byte>)
    ensures PasswordHash(p, password, protocol) == Some(input) <==> PasswordInput(p, protocol, password, input)
  {
    HexSpells(p.sha256(password));
    if Spells(input, p.sha256(password)) {
      SpellingUnique(input, Hex(p.sha256(password)), p.sha256(password));
    }
  }

  lemma ZeroResidue(x: nat, n: nat)
    requires n > 0
    ensures x % n == 0 <==> exists q :: x == q * n
  {
    if x % n == 0 {
      assert x == (x / n) * n;
    }
    forall q | x == q * n ensures x % n == 0 {
      AddMultiple(0, q, n);
    }
  }

  /** What makes the client refuse, in the order in which it looks: a challenge that cannot be
      decoded, a server key that is zero in the group, a protocol other than the two it knows,
      and a zero scrambling parameter. */
  lemma RefusedExactly(p: Primitives, g: Group, username: seq<byte>, key: seq<byte>, password: seq<byte>,
                       response: InitResponse, trustToken: Option<string>)
    requires g.n > 1
    ensures
      var clientPublic := Pow(g.generator, FromBytes(key)) % g.n;
      var r := MakeProof(p, g, WithPrivateKey(g, username, key), password, response, trustToken);
      var known := response.protocol == "s2k" || response.protocol == "s2k_fo";
      if p.decode(response.salt).None? || p.decode(response.b).None? then r == Err(Undecodable)
      else
        var serverPublic := FromBytes(p.decode(response.b).value);
        var zeroKey := exists q :: serverPublic == q * g.n;
        && (r == Err(ZeroServerKey) <==> zeroKey)
        && (r == Err(UnsupportedProtocol(response.protocol)) <==> !zeroKey && !known)
        && (r == Err(ZeroScrambling)
            <==> !zeroKey && known && FromBytes(p.sha256(Pad(clientPublic) + Pad(serverPublic))) == 0)
        && (r.Ok? <==> !zeroKey && known && FromBytes(p.sha256(Pad(clientPublic) + Pad(serverPublic))) != 0)
  {
    if p.decode(response.b).Some? {
      ZeroResidue(FromBytes(p.decode(response.b).value), g.n);
    }
  }

  lemma ProofFromDecoded(p: Primitives, g: Group, client: Client, password: seq<byte>, response: InitResponse,
                         trustToken: Option<string>, salt: seq<byte>, serverBytes: seq<byte>, passwordHash: seq<byte>)
    requires g.n > 1
    requires p.decode(response.salt) == Some(salt) && p.decode(response.b) == Some(serverBytes)
    requires PasswordHash(p, password, response.protocol) == Some(passwordHash)
    ensures
      var serverPublic := FromBytes(serverBytes);
      var u := Scrambling(p, client.publicKey, serverPublic);
      var x := PrivateExponent(p, salt, passwordHash, response.iteration);
      var secret := ClientSecret(g, client.privateKey, serverPublic, Multiplier(p, g), u, x);
      var (m1, m2) := Evidence(p, g, client.username, salt, client.publicKey, serverPublic, secret);
      MakeProof(p, g, client, password, response, trustToken)
      == if serverPublic % g.n == 0 then Err(ZeroServerKey)
         else if u == 0 then Err(ZeroScrambling)
         else Ok(Proof(client.username, response.c, p.encode(m1), p.encode(m2), true, TokenList(trustToken)))
  {
  }

  /** The client's secret is the one the server computes from the verifier. */
  lemma EnrolledSecretsAgree(p: Primitives, g: Group, server: Server, a: nat, x: nat)
    requires g.n > 1 && server.verifier == Pow(g.generator, x) % g.n
    ensures
      var clientPublic := PublicKey(g, a);
      ClientSecret(g, a, PublicKeyOf(p, g, server), Multiplier(p, g), ScramblingOf(p, g, server, clientPublic), x)
      == ServerSecret(g, clientPublic, server.verifier, ScramblingOf(p, g, server, clientPublic), server.b)
  {
    HonestSecretsAgree(g, a, server.b, x, ScramblingOf(p, g, server, PublicKey(g, a)), Multiplier(p, g));
  }

  /** Against an honest server that enrolled the same password, the client sends exactly
      the proofs the server expects, unless the keys hit one of the two refused values. */
  lemma HonestServerAccepts(p: Primitives, g: Group, password: seq<byte>, key: seq<byte>, server: Server, c: string,
                            trustToken: Option<string>)
    requires g.n > 1 && DecodesWhatItEncodes(p) && Enrolled(p, g, password, server)
    ensures
      var clientPublic := Pow(g.generator, FromBytes(key)) % g.n;
      var (m1, m2) := ExpectedProofs(p, g, server, clientPublic);
      MakeProof(p, g, WithPrivateKey(g, server.username, key), password, Challenge(p, g, server, c), trustToken)
      == if PublicKeyOf(p, g, server) == 0 then Err(ZeroServerKey)
         else if ScramblingOf(p, g, server, clientPublic) == 0 then Err(ZeroScrambling)
         else Ok(Proof(server.username, c, p.encode(m1), p.encode(m2), true,
                       if trustToken.Some? then [trustToken.value] else []))
  {
    var client, publicKey := WithPrivateKey(g, server.username, key), PublicKeyOf(p, g, server);
    var input: seq<byte> :|
      PasswordInput(p, server.protocol, password, input) && server.verifier == VerifierFrom(p, g, server, input);
    PasswordHashed(p, password, server.protocol, input);
    BytesDecode(publicKey);
    PublicKeyReduced(g, Multiplier(p, g), server.verifier, server.b);
    ProofFromDecoded(p, g, client, password, Challenge(p, g, server, c), trustToken, server.salt, ToBytes(publicKey),
                     input);
    EnrolledSecretsAgree(p, g, server, client.privateKey,
                         PrivateExponent(p, server.salt, input, server.iteration));
  }

  /** The scrambling parameter commits to both public keys: within Apple's group, the
      same hashed bytes mean the same keys. */
  lemma ScramblingInputDetermined(clientKey: nat, serverPublic: nat, clientKey': nat, serverPublic': nat)
    requires Pad(PublicKey(APPLE_GROUP, clientKey)) + Pad(serverPublic)
          == Pad(PublicKey(APPLE_GROUP, clientKey')) + Pad(serverPublic')
    ensures PublicKey(APPLE_GROUP, clientKey) == PublicKey(APPLE_GROUP, clientKey') && serverPublic == serverPublic'
  {
    GroupFitsPadding();
    PaddedPairDetermined(PublicKey(APPLE_GROUP, clientKey), serverPublic, PublicKey(APPLE_GROUP, clientKey'),
                         serverPublic');
  }
}
