/** requestFingerprint and writeFingerprintField of pkg/jobs/values.go. SHA-256 is a parameter. */
module Fingerprint {
  import opened Base
  import opened Values

  const TWO64: int := 0x1_0000_0000_0000_0000

  /** Two's complement: Go's uint64(x) of an int or int64. */
  function Uint64(x: int): nat { x % TWO64 }

  predicate IsInt64(x: int) { -0x8000_0000_0000_0000 <= x < 0x8000_0000_0000_0000 }

  function Pow256(width: nat): (p: int)
    ensures p > 0
  {
    if width == 0 then 1 else 256 * Pow256(width - 1)
  }

  function BigEndian(n: nat, width: nat): (b: Bytes)
    ensures |b| == width
  {
    if width == 0 then [] else BigEndian(n / 256, width - 1) + [n % 256]
  }

  /** binary.BigEndian.PutUint64 of one word. */
  function Word(n: nat): (b: Bytes)
    ensures |b| == 8
  {
    BigEndian(n, 8)
  }

  function HalfWord(n: nat): (b: Bytes)
    ensures |b| == 4
  {
    BigEndian(n, 4)
  }

  function UnixSeconds(t: Time): int { t.ns / SECOND }

  function Nanosecond(t: Time): nat { t.ns % SECOND }

  function Frame(field: Bytes): Bytes { Word(Uint64(|field|)) + field }

  /** The instant's words, after the octet that says whether there is one. */
  function Instant(seconds: nat, nanosecond: nat): Bytes { [1] + (Word(seconds) + HalfWord(nanosecond)) }

  function Availability(t: Time): Bytes {
    if t.IsZero() then [0] else Instant(Uint64(UnixSeconds(t)), Nanosecond(t))
  }

  function Scalars(r: EnqueueRequest): Bytes { Word(Uint64(r.maxAttempts)) + Availability(r.availableAt) }

  function AfterKind(r: EnqueueRequest): Bytes { Frame(r.payload) + Scalars(r) }

  function AfterQueue(r: EnqueueRequest): Bytes { Frame(r.kind) + AfterKind(r) }

  /** Everything the hash is fed for one request. */
  function Preimage(r: EnqueueRequest): Bytes { Frame(r.queue) + AfterQueue(r) }

  /** A running hash: it is determined by the octets written so far. */
  class Hash {
    var written: Bytes

    constructor ()
      ensures written == []
    {
      written := [];
    }

    method Write(p: Bytes)
      modifies this
      ensures written == old(written) + p
    {
      written := written + p;
    }

    method Sum(sha256: Bytes -> Bytes) returns (digest: Bytes)
      ensures digest == sha256(written)
    {
      digest := sha256(written);
    }
  }

  /** Big-endian digits, most significant first, into the whole of a reusable buffer. */
  method PutUint(buffer: array<Byte>, v: nat)
    modifies buffer
    ensures buffer[..] == BigEndian(v, buffer.Length)
  {
    var i, rest := buffer.Length, v;
    while i > 0
      invariant 0 <= i <= buffer.Length
      invariant BigEndian(v, buffer.Length) == BigEndian(rest, i) + buffer[i..]
    {
      i := i - 1;
      buffer[i] := rest % 256;
      assert buffer[i..] == [buffer[i]] + buffer[i + 1..];
      rest := rest / 256;
    }
  }

  method PutUint64(scalar: array<Byte>, v: nat)
    requires scalar.Length == 8
    modifies scalar
    ensures scalar[..] == Word(v)
  {
    PutUint(scalar, v);
  }

  method PutUint32(nanoseconds: array<Byte>, v: nat)
    requires nanoseconds.Length == 4
    modifies nanoseconds
    ensures nanoseconds[..] == HalfWord(v)
  {
    PutUint(nanoseconds, v);
  }

  method WriteFingerprintField(hash: Hash, field: Bytes)
    modifies hash
    ensures hash.written == old(hash.written) + Frame(field)
  {
    var size := new Byte[8];
    PutUint64(size, Uint64(|field|));
    hash.Write(size[..]);
    hash.Write(field);
  }

  /** The optional instant, after the attempt count, through the same scalar buffer. */
  method WriteScalars(hash: Hash, request: EnqueueRequest)
    modifies hash
    ensures hash.written == old(hash.written) + Scalars(request)
  {
    var scalar := new Byte[8];
    PutUint64(scalar, Uint64(request.maxAttempts));
    hash.Write(scalar[..]);
    ghost var start := hash.written;
    if request.availableAt.IsZero() {
      hash.Write([0]);
    } else {
      hash.Write([1]);
      PutUint64(scalar, Uint64(UnixSeconds(request.availableAt)));
      hash.Write(scalar[..]);
      var nanoseconds := new Byte[4];
      PutUint32(nanoseconds, Nanosecond(request.availableAt));
      hash.Write(nanoseconds[..]);
    }
    assert hash.written == start + Availability(request.availableAt);
  }

  method RequestFingerprint(request: EnqueueRequest, sha256: Bytes -> Bytes) returns (digest: Bytes)
    ensures digest == sha256(Preimage(request))
  {
    var hash := new Hash();
    WriteFingerprintField(hash, request.queue);
    WriteFingerprintField(hash, request.kind);
    WriteFingerprintField(hash, request.payload);
    WriteScalars(hash, request);
    FourParts(Frame(request.queue), Frame(request.kind), Frame(request.payload), Scalars(request));
    digest := hash.Sum(sha256);
  }

  lemma FourParts(a: Bytes, b: Bytes, c: Bytes, d: Bytes)
    ensures (([] + a + b) + c) + d == a + (b + (c + d))
  {
  }

  // ----- Injectivity of the framing -----

  lemma {:induction false} BigEndianInjective(a: nat, b: nat, width: nat)
    requires a < Pow256(width) && b < Pow256(width)
    requires BigEndian(a, width) == BigEndian(b, width)
    ensures a == b
  {
    if width > 0 {
      var x, y := BigEndian(a, width), BigEndian(b, width);
      assert x[width - 1] == a % 256 && y[width - 1] == b % 256;
      assert BigEndian(a / 256, width - 1) == x[..width - 1] && BigEndian(b / 256, width - 1) == y[..width - 1];
      BigEndianInjective(a / 256, b / 256, width - 1);
    }
  }

  lemma WordInjective(a: nat, b: nat)
    requires a < TWO64 && b < TWO64 && Word(a) == Word(b)
    ensures a == b
  {
    assert Pow256(4) == 0x1_0000_0000;
    assert Pow256(8) == TWO64;
    BigEndianInjective(a, b, 8);
  }

  lemma HalfWordInjective(a: nat, b: nat)
    requires a < 0x1_0000_0000 && b < 0x1_0000_0000 && HalfWord(a) == HalfWord(b)
    ensures a == b
  {
    assert Pow256(4) == 0x1_0000_0000;
    BigEndianInjective(a, b, 4);
  }

  lemma SameLengthSplit(a: Bytes, b: Bytes, x: Bytes, y: Bytes)
    requires |a| == |b| && a + x == b + y
    ensures a == b && x == y
  {
    assert a == (a + x)[..|a|] && b == (b + y)[..|b|];
    assert x == (a + x)[|a|..] && y == (b + y)[|b|..];
  }

  lemma SplitPrefixes(p: Bytes, q: Bytes, a: Bytes, b: Bytes, x: Bytes, y: Bytes)
    requires |p| == |q| && (p + a) + x == (q + b) + y
    ensures p == q && a + x == b + y
  {
    assert (p + a) + x == p + (a + x) && (q + b) + y == q + (b + y);
    SameLengthSplit(p, q, a + x, b + y);
  }

  lemma SplitWords(m: nat, n: nat, a: Bytes, b: Bytes, x: Bytes, y: Bytes)
    requires m < TWO64 && n < TWO64
    requires (Word(m) + a) + x == (Word(n) + b) + y
    ensures m == n && a + x == b + y
  {
    SplitPrefixes(Word(m), Word(n), a, b, x, y);
    WordInjective(m, n);
  }

  lemma LengthFits(n: nat)
    requires n < TWO64
    ensures Uint64(n) == n
  {
  }

  /** A framed field can be read back whatever follows it. */
  lemma FrameSplit(a: Bytes, b: Bytes, x: Bytes, y: Bytes)
    requires |a| < TWO64 && |b| < TWO64
    requires Frame(a) + x == Frame(b) + y
    ensures a == b && x == y
  {
    LengthFits(|a|);
    LengthFits(|b|);
    SplitWords(|a|, |b|, a, b, x, y);
    SameLengthSplit(a, b, x, y);
  }

  lemma WordSplit(a: nat, b: nat, x: Bytes, y: Bytes)
    requires a < TWO64 && b < TWO64 && Word(a) + x == Word(b) + y
    ensures a == b && x == y
  {
    SameLengthSplit(Word(a), Word(b), x, y);
    WordInjective(a, b);
  }

  lemma InstantInjective(a: nat, b: nat, m: nat, n: nat)
    requires a < TWO64 && b < TWO64 && m < SECOND && n < SECOND
    requires Instant(a, m) == Instant(b, n)
    ensures a == b && m == n
  {
    SameLengthSplit([1], [1], Word(a) + HalfWord(m), Word(b) + HalfWord(n));
    WordSplit(a, b, HalfWord(m), HalfWord(n));
    HalfWordInjective(m, n);
  }

  predicate SameInstant(s: Time, t: Time) { s.ns == t.ns }

  lemma SecondsAndNanosecond(s: Time, t: Time)
    requires IsInt64(UnixSeconds(s)) && IsInt64(UnixSeconds(t))
    requires Uint64(UnixSeconds(s)) == Uint64(UnixSeconds(t)) && Nanosecond(s) == Nanosecond(t)
    ensures SameInstant(s, t)
  {
  }

  lemma AvailabilityInjective(s: Time, t: Time)
    requires IsInt64(UnixSeconds(s)) && IsInt64(UnixSeconds(t))
    requires Availability(s) == Availability(t)
    ensures SameInstant(s, t)
  {
    assert s.IsZero() <==> Availability(s)[0] == 0;
    assert t.IsZero() <==> Availability(t)[0] == 0;
    if !s.IsZero() {
      InstantInjective(Uint64(UnixSeconds(s)), Uint64(UnixSeconds(t)), Nanosecond(s), Nanosecond(t));
      SecondsAndNanosecond(s, t);
    }
  }

  /** What a fingerprint binds: every field but the idempotency key, availability as an instant. */
  predicate SameRequest(r: EnqueueRequest, s: EnqueueRequest) {
    && r.queue == s.queue && r.kind == s.kind && r.payload == s.payload
    && r.maxAttempts == s.maxAttempts && SameInstant(r.availableAt, s.availableAt)
  }

  predicate Representable(r: EnqueueRequest) {
    && |r.queue| < TWO64 && |r.kind| < TWO64 && |r.payload| < TWO64
    && IsInt64(r.maxAttempts) && IsInt64(UnixSeconds(r.availableAt))
  }

  /** Two requests feed the hash the same octets exactly when they ask for the same thing. */
  lemma PreimageInjective(r: EnqueueRequest, s: EnqueueRequest)
    requires Representable(r) && Representable(s)
    ensures Preimage(r) == Preimage(s) <==> SameRequest(r, s)
  {
    if Preimage(r) == Preimage(s) {
      PreimageDetermines(r, s);
    }
  }

  lemma PreimageDetermines(r: EnqueueRequest, s: EnqueueRequest)
    requires Representable(r) && Representable(s)
    requires Preimage(r) == Preimage(s)
    ensures SameRequest(r, s)
  {
    FrameSplit(r.queue, s.queue, AfterQueue(r), AfterQueue(s));
    FrameSplit(r.kind, s.kind, AfterKind(r), AfterKind(s));
    FrameSplit(r.payload, s.payload, Scalars(r), Scalars(s));
    ScalarsDetermine(r, s);
  }

  lemma ScalarsDetermine(r: EnqueueRequest, s: EnqueueRequest)
    requires Representable(r) && Representable(s) && Scalars(r) == Scalars(s)
    ensures r.maxAttempts == s.maxAttempts && SameInstant(r.availableAt, s.availableAt)
  {
    WordSplit(Uint64(r.maxAttempts), Uint64(s.maxAttempts), Availability(r.availableAt), Availability(s.availableAt));
    AvailabilityInjective(r.availableAt, s.availableAt);
  }

  /** Every request that passes validation can be framed. */
  lemma ValidIsRepresentable(r: EnqueueRequest)
    requires ValidEnqueue(r)
    ensures Representable(r)
  {
  }
}
