/**
 The SRP-6a client of the pairing (internal/airplay/srp.go) and the receiver it must agree
 with, after sections 2.5.3, 2.5.4 and 2.6 of RFC 5054. The hash, the group and its
 generator are parameters.
 */
module Srp {
  import opened Collections
  import opened Wrappers
  import opened ByteOrder

  type Bytes = seq<Byte>

  /** The hash over the concatenation of its parts; the prime, the generator and the user name. */
  datatype Group = Group(hash: Bytes -> Bytes, n: nat, g: nat, user: Bytes)

  ghost predicate Proper(p: Group) { 1 < p.n <= Power256(PUBLIC) && 0 < p.g < p.n }

  const PUBLIC: nat := 384

  /******* Modular arithmetic *******/

  function Power(b: int, e: nat): int { if e == 0 then 1 else b * Power(b, e - 1) }

  function Exp(b: int, e: nat, n: nat): nat
    requires n > 0
  {
    Power(b, e) % n
  }

  lemma ModShift(z: int, m: int, n: nat)
    requires n > 0
    ensures (z + m * n) % n == z % n
  {
    var x := z + m * n;
    assert (x / n - z / n - m) * n == z % n - x % n;
    Multiples(x / n - z / n - m, n);
  }

  lemma ModTimes(x: int, y: int, n: nat)
    requires n > 0
    ensures ((x % n) * y) % n == (x * y) % n
  {
    var q := x / n;
    assert x * y == (x % n) * y + (q * y) * n;
    ModShift((x % n) * y, q * y, n);
  }

  lemma ModPlus(x: int, y: int, n: nat)
    requires n > 0
    ensures ((x % n) + y) % n == (x + y) % n
  {
    assert x + y == (x % n) + y + (x / n) * n;
    ModShift((x % n) + y, x / n, n);
  }

  lemma {:induction false} PowerMod(b: int, e: nat, n: nat)
    requires n > 0
    ensures Power(b % n, e) % n == Power(b, e) % n
  {
    if e > 0 {
      var p, q := Power(b % n, e - 1), Power(b, e - 1);
      PowerMod(b, e - 1, n);
      calc {
        Power(b % n, e) % n;
        ((b % n) * p) % n;
        { ModTimes(b, p, n); }
        (b * p) % n;
        { assert b * p == p * b; ModTimes(p, b, n); }
        ((q % n) * b) % n;
        { ModTimes(q, b, n); assert q * b == b * q; }
        Power(b, e) % n;
      }
    }
  }

  lemma {:induction false} PowerPlus(b: int, d: nat, e: nat)
    ensures Power(b, d + e) == Power(b, d) * Power(b, e)
  {
    if d > 0 {
      PowerPlus(b, d - 1, e);
      assert Power(b, d + e) == b * (Power(b, d - 1) * Power(b, e));
    }
  }

  lemma {:induction false} PowerPower(b: int, d: nat, e: nat)
    ensures d * e >= 0 && Power(Power(b, d), e) == Power(b, d * e)
  {
    if e > 0 {
      PowerPower(b, d, e - 1);
      assert d * e == d + d * (e - 1);
      PowerPlus(b, d, d * (e - 1));
    }
  }

  /******* Bytes *******/

  /** Big-endian without leading zeros, as Bytes writes it. */
  function Minimal(v: nat): Bytes { if v == 0 then [] else Minimal(v / 256) + [v % 256] }

  /** Big-endian in 384 bytes, as FillBytes writes it. */
  function Pad(v: nat): Bytes { BigEndian(v, PUBLIC) }

  function Xor(a: Bytes, b: Bytes): Bytes
    requires |a| == |b|
  {
    if a == [] then [] else [((a[0] as bv8) ^ (b[0] as bv8)) as Byte] + Xor(a[1..], b[1..])
  }

  /******* The client *******/

  datatype Client = Client(key: Bytes, proof: Bytes, serverProof: Bytes, public: Bytes)

  function Multiplier(p: Group): nat { Number(p.hash(Pad(p.n) + Pad(p.g))) }

  function PasswordExponent(p: Group, salt: Bytes, pin: Bytes): nat
  {
    Number(p.hash(salt + p.hash(p.user + [58] + pin)))
  }

  function Scrambling(p: Group, A: nat, B: nat): nat { Number(p.hash(Pad(A) + Pad(B))) }

  /** The client's secret: (B - k * g^x) ^ (a + u * x) mod N. */
  function ClientSecret(p: Group, a: nat, x: nat, u: nat, B: nat): nat
    requires p.n > 0
  {
    Times(u, x);
    Exp((B - Multiplier(p) * Exp(p.g, x, p.n)) % p.n, a + u * x, p.n)
  }

  lemma Times(u: nat, x: nat)
    ensures u * x >= 0
  {}

  function Proof(p: Group, salt: Bytes, A: nat, B: nat, key: Bytes): Bytes
    requires |p.hash(Minimal(p.n))| == |p.hash(Minimal(p.g))|
  {
    p.hash(Xor(p.hash(Minimal(p.n)), p.hash(Minimal(p.g))) + p.hash(p.user) + salt + Minimal(A) + Minimal(B) + key)
  }

  /** newSRPWithRandom; `random` is absent when the source of randomness fails. */
  function NewSrp(p: Group, salt: Bytes, server: Bytes, pin: Bytes, random: Option<Bytes>): Result<Client>
    requires Proper(p) && |p.hash(Minimal(p.n))| == |p.hash(Minimal(p.g))|
  {
    if |salt| < 16 || |salt| > 64 || |server| == 0 || |server| > PUBLIC then Bad
    else
      var B := Number(server);
      if B == 0 || B >= p.n || random.None? then Bad
      else
        var a := Number(random.value);
        var A := Exp(p.g, a, p.n);
        var u := Scrambling(p, A, B);
        if u == 0 then Bad
        else
          var key := p.hash(Minimal(ClientSecret(p, a, PasswordExponent(p, salt, pin), u, B)));
          var proof := Proof(p, salt, A, B, key);
          Ok(Client(key, proof, p.hash(Pad(A) + proof + key), Pad(A)))
  }

  /******* The receiver *******/

  /** B = k * v + g^b. */
  function ServerPublic(p: Group, v: nat, b: nat): nat
    requires p.n > 0
  {
    (Multiplier(p) * v + Exp(p.g, b, p.n)) % p.n
  }

  /** S = (A * v^u) ^ b. */
  function ServerSecret(p: Group, A: nat, v: nat, u: nat, b: nat): nat
    requires p.n > 0
  {
    Exp(A * Power(v, u), b, p.n)
  }

  /** Whatever the private exponents, the PIN and the scrambling value, both sides reach the same secret. */
  lemma SecretsAgree(p: Group, a: nat, b: nat, x: nat, u: nat)
    requires Proper(p)
    ensures var v := Exp(p.g, x, p.n);
            ClientSecret(p, a, x, u, ServerPublic(p, v, b)) == ServerSecret(p, Exp(p.g, a, p.n), v, u, b)
  {
    var n, g, k, v := p.n, p.g, Multiplier(p), Exp(p.g, x, p.n);
    Times(u, x);
    ClientBase(k * v, Power(g, b), n);
    ClientSide(g, b, a + u * x, n);
    ServerSide(g, a, x, u, b, n);
  }

  lemma Unshift(kv: int, y: int, n: nat)
    requires n > 0
    ensures ((kv + y) % n - kv) % n == y % n
  {
    ModPlus(kv + y, -kv, n);
  }

  lemma ClientBase(kv: int, gb: int, n: nat)
    requires n > 0
    ensures ((kv + gb % n) % n - kv) % n == gb % n
  {
    var y := gb % n;
    Unshift(kv, y, n);
    assert y % n == y;
  }

  lemma ClientSide(g: int, b: nat, e: nat, n: nat)
    requires n > 0
    ensures b * e >= 0 && Exp(Exp(g, b, n), e, n) == Exp(g, b * e, n)
  {
    PowerMod(Power(g, b), e, n);
    PowerPower(g, b, e);
  }

  lemma ServerSide(g: int, a: nat, x: nat, u: nat, b: nat, n: nat)
    requires n > 0
    ensures u * x >= 0 && b * (a + u * x) >= 0
    ensures Exp(Exp(g, a, n) * Power(Exp(g, x, n), u), b, n) == Exp(g, b * (a + u * x), n)
  {
    Times(u, x);
    var A, vu, e := Power(g, a), Power(Exp(g, x, n), u), a + u * x;
    calc {
      (Exp(g, a, n) * vu) % n;
      { ModTimes(A, vu, n); }
      (A * vu) % n;
      { assert A * vu == vu * A; ModTimes(vu, A, n); PowerMod(Power(g, x), u, n); }
      ((Power(Power(g, x), u) % n) * A) % n;
      { ModTimes(Power(Power(g, x), u), A, n); }
      (Power(Power(g, x), u) * A) % n;
      { PowerPower(g, x, u); assert x * u == u * x; PowerPlus(g, a, u * x);
          assert Power(g, u * x) * A == A * Power(g, u * x); }
      Power(g, e) % n;
    }
    PowerMod(Exp(g, a, n) * vu, b, n);
    PowerMod(Power(g, e), b, n);
    PowerPower(g, e, b);
    assert e * b == b * e;
  }

  /** The PIN as the receiver keeps it: v = g^x, where x = H(salt, H(user, ":", PIN)). */
  function Verifier(p: Group, salt: Bytes, pin: Bytes): nat
    requires p.n > 0
  {
    Exp(p.g, Number(p.hash(salt + p.hash(p.user + [0x3A] + pin))), p.n)
  }

  /** B = k * v + g^b, where k = H(N, PAD(g)). */
  function ReceiverKey(p: Group, salt: Bytes, pin: Bytes, b: nat): nat
    requires p.n > 0
  {
    (Number(p.hash(BigEndian(p.n, 384) + BigEndian(p.g, 384))) * Verifier(p, salt, pin) + Exp(p.g, b, p.n)) % p.n
  }

  /** u = H(PAD(A), PAD(B)). */
  function ReceiverScrambling(p: Group, A: nat, B: nat): nat {
    Number(p.hash(BigEndian(A, 384) + BigEndian(B, 384)))
  }

  /** The receiver's side of the exchange, from the public key the client sent. */
  function Receiver(p: Group, salt: Bytes, pin: Bytes, b: nat, public: Bytes): Client
    requires Proper(p) && |p.hash(Minimal(p.n))| == |p.hash(Minimal(p.g))|
  {
    var v, A, B := Verifier(p, salt, pin), Number(public), ReceiverKey(p, salt, pin, b);
    var key := p.hash(Minimal(ServerSecret(p, A, v, ReceiverScrambling(p, A, B), b)));
    var proof := p.hash(Xor(p.hash(Minimal(p.n)), p.hash(Minimal(p.g))) + p.hash(p.user) + salt + Minimal(A)
        + Minimal(B) + key);
    Client(key, proof, p.hash(BigEndian(A, 384) + proof + key), public)
  }

  lemma SameKey(p: Group, salt: Bytes, pin: Bytes, b: nat)
    requires p.n > 0
    ensures ReceiverKey(p, salt, pin, b) == ServerPublic(p, Exp(p.g, PasswordExponent(p, salt, pin), p.n), b)
    ensures Verifier(p, salt, pin) == Exp(p.g, PasswordExponent(p, salt, pin), p.n)
  {}

  /**
   The client fails exactly on a salt or a receiver key of the wrong length, a receiver key
   that is zero, failed randomness or a zero scrambling value; otherwise both sides have the
   same key and each accepts the other's proof, with or without leading zeros in the key sent.
   */
  lemma PairingAgrees(p: Group, salt: Bytes, pin: Bytes, random: Option<Bytes>, b: nat, server: Bytes)
    requires 1 < p.n <= Power256(384) && 0 < p.g < p.n && |p.hash(Minimal(p.n))| == |p.hash(Minimal(p.g))|
    requires Number(server) == ReceiverKey(p, salt, pin, b)
    ensures var B := Number(server);
            var c := NewSrp(p, salt, server, pin, random);
            && (c.Bad? <==> |salt| < 16 || |salt| > 64 || |server| > 384 || B == 0 || random.None? ||
                            ReceiverScrambling(p, Exp(p.g, Number(random.value), p.n), B) == 0)
            && (c.Ok? ==> c.value == Receiver(p, salt, pin, b, c.value.public))
  {
    SameKey(p, salt, pin, b);
    if random.Some? {
      var a := Number(random.value);
      var A := Exp(p.g, a, p.n);
      NumberOfBigEndian(A, PUBLIC);
      SecretsAgree(p, a, b, PasswordExponent(p, salt, pin), Scrambling(p, A, Number(server)));
    }
    hide Power, Exp, BigEndian, ClientSecret, ServerSecret, ServerPublic;
  }

  /** The padded key is one the receiver may send, and the client's is padded the same way. */
  lemma PaddedKey(p: Group, salt: Bytes, pin: Bytes, b: nat, random: Bytes)
    requires Proper(p) && |p.hash(Minimal(p.n))| == |p.hash(Minimal(p.g))|
    ensures var B := ReceiverKey(p, salt, pin, b); |BigEndian(B, 384)| == 384 && Number(BigEndian(B, 384)) == B
    ensures var c := NewSrp(p, salt, BigEndian(ReceiverKey(p, salt, pin, b), 384), pin, Some(random));
            c.Ok? ==> |c.value.public| == 384 && Number(c.value.public) == Power(p.g, Number(random)) % p.n
  {
    NumberOfBigEndian(ReceiverKey(p, salt, pin, b), 384);
    NumberOfBigEndian(Exp(p.g, Number(random), p.n), 384);
  }

  /** Powers are repeated products. */
  lemma PowerMeans(b: int, e: nat)
    ensures Power(b, 0) == 1 && Power(b, 1) == b && Power(b, e + 1) == b * Power(b, e)
    ensures Power(2, 10) == 1024
  {
    assert Power(2, 5) == 32;
    PowerPlus(2, 5, 5);
  }

  /** The shortest bytes of a number. */
  lemma {:induction false} MinimalMeans(v: nat)
    ensures Number(Minimal(v)) == v && (v > 0 ==> Minimal(v) != [] && Minimal(v)[0] != 0)
            && (v == 0 ==> Minimal(v) == [])
  {
    if v > 0 {
      MinimalMeans(v / 256);
      assert Minimal(v)[..|Minimal(v)| - 1] == Minimal(v / 256);
    }
  }

  lemma {:induction false} XorMeans(a: Bytes, b: Bytes, i: nat)
    requires i < |a| == |b|
    ensures |Xor(a, b)| == |a| && Xor(a, b)[i] as bv8 == (a[i] as bv8) ^ (b[i] as bv8)
  {
    if i > 0 { XorMeans(a[1..], b[1..], i - 1); } else { XorSize(a, b); }
  }

  lemma {:induction false} XorSize(a: Bytes, b: Bytes)
    requires |a| == |b|
    ensures |Xor(a, b)| == |a|
  {
    if a != [] { XorSize(a[1..], b[1..]); }
  }
}
