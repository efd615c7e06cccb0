/** The streaming encrypted envelope (internal/service/crypto.go).

    `EncryptStream` and `DecryptStream` loop over a reader and a writer that may fail at any
    call; they are proved against `Envelope` and `Decode`, and the laws of the format are
    proved about those two functions for any AEAD in which open inverts seal.
 */
module Envelope {
  import opened Wrappers

  type Byte = b: int | 0 <= b < 256
  type Bytes = seq<Byte>

  const MAGIC: Bytes := [101, 110, 99, 58, 118, 50, 58] // "enc:v2:"
  const SALT_SIZE := 16
  const NONCE_SIZE := 12
  const CHUNK := 65536
  const TAG := 16

  /** An AEAD under keys derived from a password and a salt. */
  datatype Cipher = Cipher(
    derive: (string, Bytes) -> Bytes,
    seal: (Bytes, Bytes, Bytes) -> Bytes,
    open: (Bytes, Bytes, Bytes) -> Option<Bytes>)
  {
    ghost predicate Lawful() {
      forall key: Bytes, nonce: Bytes, plain: Bytes {:trigger seal(key, nonce, plain)} ::
        |seal(key, nonce, plain)| == |plain| + TAG && open(key, nonce, seal(key, nonce, plain)) == Some(plain)
    }
  }

  // ---------- Big-endian integers ----------

  function Pow256(width: nat): (m: nat)
    ensures m > 0
  {
    if width == 0 then 1 else 256 * Pow256(width - 1)
  }

  /** The `width` low bytes of `x`, most significant first. */
  function BigEndian(x: nat, width: nat): (bytes: Bytes)
    ensures |bytes| == width
    decreases x, width
  {
    if width == 0 then [] else BigEndian(x / 256, width - 1) + [x % 256]
  }

  function FromBigEndian(bytes: Bytes): nat {
    if bytes == [] then 0
    else 256 * FromBigEndian(bytes[..|bytes| - 1]) + bytes[|bytes| - 1]
  }

  lemma {:induction false} ModByDigits(x: nat, m: nat)
    requires m > 0
    ensures x % (256 * m) == 256 * (x / 256 % m) + x % 256
  {
    var q, r := x / 256, x % 256;
    var a, b := q / m, q % m;
    assert q == m * a + b && b <= m - 1;
    assert x == 256 * (m * a + b) + r == (256 * m) * a + (256 * b + r);
    DivModUnique(x, 256 * m, a, 256 * b + r);
  }

  lemma {:induction false} DivModUnique(x: nat, d: nat, a: int, r: int)
    requires d > 0 && x == d * a + r && 0 <= r < d
    ensures x % d == r
  {
    var a', r' := x / d, x % d;
    assert x == d * a' + r';
    if a > a' {
      ScaledGap(d, a, a');
    } else if a < a' {
      ScaledGap(d, a', a);
    }
  }

  lemma {:induction false} ScaledGap(d: nat, a: int, b: int)
    requires d > 0 && a > b
    ensures d * a >= d * b + d
    decreases a - b
  {
    assert d * a == d * (a - 1) + d;
    if a - 1 > b {
      ScaledGap(d, a - 1, b);
    }
  }

  lemma {:induction false} BigEndianRoundTrip(x: nat, width: nat)
    ensures FromBigEndian(BigEndian(x, width)) == x % Pow256(width)
    decreases width
  {
    if width > 0 {
      var bytes := BigEndian(x, width);
      assert bytes[..|bytes| - 1] == BigEndian(x / 256, width - 1);
      BigEndianRoundTrip(x / 256, width - 1);
      ModByDigits(x, Pow256(width - 1));
    }
  }

  lemma {:induction false} Powers()
    ensures Pow256(4) == 0x1_0000_0000 && Pow256(8) == 0x1_0000_0000_0000_0000
  {
    assert Pow256(2) == 65536 && Pow256(3) == 0x100_0000;
    assert Pow256(5) == 0x100_0000_0000 && Pow256(6) == 0x1_0000_0000_0000 && Pow256(7) == 0x100_0000_0000_0000;
  }

  // ---------- The format ----------

  /** The base nonce with its low eight bytes replaced by the 64-bit chunk counter. */
  function ChunkNonce(base: Bytes, counter: nat): Bytes
    requires |base| == NONCE_SIZE
  {
    base[..4] + BigEndian(counter, 8)
  }

  /** One chunk of plaintext and the nonce it is sealed under. */
  datatype Sealing = Sealing(nonce: Bytes, chunk: Bytes)

  /** The chunks a stream is cut into, in order. */
  function Plan(base: Bytes, plain: Bytes, counter: nat): seq<Sealing>
    requires |base| == NONCE_SIZE
    decreases |plain|
  {
    if plain == [] then []
    else
      var n := if |plain| < CHUNK then |plain| else CHUNK;
      [Sealing(ChunkNonce(base, counter), plain[..n])] + Plan(base, plain[n..], counter + 1)
  }

  function Frame(c: Cipher, key: Bytes, s: Sealing): Bytes {
    var sealed := c.seal(key, s.nonce, s.chunk);
    BigEndian(|sealed|, 4) + sealed
  }

  function Frames(c: Cipher, key: Bytes, plan: seq<Sealing>): Bytes {
    if plan == [] then BigEndian(0, 4) else Frame(c, key, plan[0]) + Frames(c, key, plan[1..])
  }

  function Header(salt: Bytes, base: Bytes): Bytes { MAGIC + salt + base }

  /** The whole envelope of `plain`. */
  function Envelope(c: Cipher, password: string, salt: Bytes, base: Bytes, plain: Bytes): Bytes
    requires |base| == NONCE_SIZE
  {
    Header(salt, base) + Frames(c, c.derive(password, salt), Plan(base, plain, 0))
  }

  /** What a reader of the envelope recovers before it stops, and whether it stopped at the
      end marker. */
  datatype Opened = Opened(plain: Bytes, ok: bool)

  function OpenFrames(c: Cipher, key: Bytes, base: Bytes, bytes: Bytes, counter: nat): Opened
    requires |base| == NONCE_SIZE
    decreases |bytes|
  {
    if |bytes| < 4 then Opened([], false)
    else
      var n := FromBigEndian(bytes[..4]);
      if n == 0 then Opened([], true)
      else if |bytes| < 4 + n then Opened([], false)
      else
        match c.open(key, ChunkNonce(base, counter), bytes[4..4 + n])
        case None => Opened([], false)
        case Some(chunk) =>
          var rest := OpenFrames(c, key, base, bytes[4 + n..], counter + 1);
          Opened(chunk + rest.plain, rest.ok)
  }

  const HEADER_SIZE := |MAGIC| + SALT_SIZE + NONCE_SIZE

  function Decode(c: Cipher, password: string, bytes: Bytes): Opened {
    if |bytes| < HEADER_SIZE || bytes[..|MAGIC|] != MAGIC then Opened([], false)
    else
      var salt := bytes[|MAGIC|..|MAGIC| + SALT_SIZE];
      OpenFrames(c, c.derive(password, salt), bytes[|MAGIC| + SALT_SIZE..HEADER_SIZE], bytes[HEADER_SIZE..], 0)
  }

  // ---------- Laws of the format ----------

  /** How many chunks `n` bytes make. */
  function ChunkCount(n: nat): nat { (n + CHUNK - 1) / CHUNK }

  /** How many bytes the first chunk of `n` takes. */
  function FirstChunk(n: nat): nat { if n < CHUNK then n else CHUNK }

  lemma {:induction false} PlanShape(base: Bytes, plain: Bytes, counter: nat)
    requires |base| == NONCE_SIZE
    ensures var plan := Plan(base, plain, counter);
      && |plan| == ChunkCount(|plain|)
      && forall i :: 0 <= i < |plan| ==> 1 <= |plan[i].chunk| <= CHUNK && plan[i].nonce == ChunkNonce(base, counter + i)
    decreases |plain|
  {
    if plain != [] {
      var n := FirstChunk(|plain|);
      PlanShape(base, plain[n..], counter + 1);
      var plan, rest := Plan(base, plain, counter), Plan(base, plain[n..], counter + 1);
      assert ChunkCount(|plain|) == 1 + ChunkCount(|plain| - n);
      ShapeOfMore(base, counter, Sealing(ChunkNonce(base, counter), plain[..n]), rest);
      assert plan == [Sealing(ChunkNonce(base, counter), plain[..n])] + rest;
    }
  }

  lemma {:induction false} ShapeOfMore(base: Bytes, counter: nat, first: Sealing, rest: seq<Sealing>)
    requires |base| == NONCE_SIZE && 1 <= |first.chunk| <= CHUNK && first.nonce == ChunkNonce(base, counter)
    requires forall i :: 0 <= i < |rest| ==>
      1 <= |rest[i].chunk| <= CHUNK && rest[i].nonce == ChunkNonce(base, counter + 1 + i)
    ensures var plan := [first] + rest;
      forall i :: 0 <= i < |plan| ==> 1 <= |plan[i].chunk| <= CHUNK && plan[i].nonce == ChunkNonce(base, counter + i)
  {
    var plan := [first] + rest;
    forall i | 0 <= i < |plan|
      ensures 1 <= |plan[i].chunk| <= CHUNK && plan[i].nonce == ChunkNonce(base, counter + i)
    {
      if i > 0 {
        assert plan[i] == rest[i - 1];
        assert rest[i - 1].nonce == ChunkNonce(base, counter + 1 + (i - 1));
      }
    }
  }

  /** The first frame of a plan and the rest of its bytes. */
  lemma {:induction false} FramesSplit(c: Cipher, key: Bytes, base: Bytes, plain: Bytes, counter: nat)
    requires c.Lawful() && |base| == NONCE_SIZE && plain != []
    ensures var n := FirstChunk(|plain|);
      var f := Frame(c, key, Sealing(ChunkNonce(base, counter), plain[..n]));
      && Frames(c, key, Plan(base, plain, counter)) == f + Frames(c, key, Plan(base, plain[n..], counter + 1))
      && |f| == 4 + n + TAG && n + TAG > 0
      && FromBigEndian(f[..4]) == n + TAG
      && f[4..] == c.seal(key, ChunkNonce(base, counter), plain[..n])
      && plain[..n] + plain[n..] == plain
  {
    var n := FirstChunk(|plain|);
    var plan := Plan(base, plain, counter);
    assert plan[1..] == Plan(base, plain[n..], counter + 1);
    FrameLength(c, key, plan[0]);
  }

  /** Opening a first frame that is all there. */
  lemma {:induction false} OpenFirst(c: Cipher, key: Bytes, base: Bytes, plain: Bytes, counter: nat, rest: Bytes)
    requires c.Lawful() && |base| == NONCE_SIZE && plain != []
    ensures var n := FirstChunk(|plain|);
      var f := Frame(c, key, Sealing(ChunkNonce(base, counter), plain[..n]));
      var next := OpenFrames(c, key, base, rest, counter + 1);
      OpenFrames(c, key, base, f + rest, counter) == Opened(plain[..n] + next.plain, next.ok)
  {
    var n := FirstChunk(|plain|);
    var f := Frame(c, key, Sealing(ChunkNonce(base, counter), plain[..n]));
    FramesSplit(c, key, base, plain, counter);
    assert (f + rest)[..4] == f[..4];
    assert (f + rest)[4..|f|] == f[4..];
    assert (f + rest)[|f|..] == rest;
  }

  /** The values of the chunk counter. */
  const COUNTERS := 0x1_0000_0000_0000_0000

  /** A chunk's nonce keeps the first four bytes of the base, and its last eight read back as the
      counter, modulo 2^64. */
  lemma {:induction false} NonceParts(base: Bytes, counter: nat)
    requires |base| == NONCE_SIZE
    ensures var n := ChunkNonce(base, counter);
      |n| == NONCE_SIZE && n[..4] == base[..4] && FromBigEndian(n[4..]) == counter % COUNTERS
  {
    Powers();
    BigEndianRoundTrip(counter, 8);
    assert ChunkNonce(base, counter)[4..] == BigEndian(counter, 8);
  }

  lemma {:induction false} NonceInjective(base: Bytes, i: nat, j: nat)
    requires |base| == NONCE_SIZE
    ensures ChunkNonce(base, i) == ChunkNonce(base, j) <==> i % COUNTERS == j % COUNTERS
  {
    Powers();
    BigEndianRoundTrip(i, 8);
    BigEndianRoundTrip(j, 8);
    assert ChunkNonce(base, i)[4..] == BigEndian(i, 8) && ChunkNonce(base, j)[4..] == BigEndian(j, 8);
    if i % COUNTERS == j % COUNTERS {
      BigEndianPeriodic(i, j, 8);
    }
  }

  lemma {:induction false} BigEndianPeriodic(i: nat, j: nat, width: nat)
    requires i % Pow256(width) == j % Pow256(width)
    ensures BigEndian(i, width) == BigEndian(j, width)
    decreases width
  {
    if width > 0 {
      ModByDigits(i, Pow256(width - 1));
      ModByDigits(j, Pow256(width - 1));
      BigEndianPeriodic(i / 256, j / 256, width - 1);
    }
  }

  /** No nonce is used twice in a stream, exactly as long as the 64-bit counter does not wrap. */
  lemma {:induction false} NoncesDistinct(base: Bytes, plain: Bytes)
    requires |base| == NONCE_SIZE
    ensures var plan := Plan(base, plain, 0);
      (forall i, j :: 0 <= i < j < |plan| ==> plan[i].nonce != plan[j].nonce) <==> |plan| <= COUNTERS
  {
    var plan := Plan(base, plain, 0);
    PlanShape(base, plain, 0);
    if |plan| <= COUNTERS {
      CountersDiffer(base, plan);
    } else {
      CounterWraps(base);
      assert plan[0].nonce == plan[COUNTERS].nonce;
    }
  }

  lemma {:induction false} CountersDiffer(base: Bytes, plan: seq<Sealing>)
    requires |base| == NONCE_SIZE && |plan| <= COUNTERS
    requires forall i :: 0 <= i < |plan| ==> plan[i].nonce == ChunkNonce(base, i)
    ensures forall i, j :: 0 <= i < j < |plan| ==> plan[i].nonce != plan[j].nonce
  {
    forall i, j | 0 <= i < j < |plan| ensures plan[i].nonce != plan[j].nonce {
      SmallCountersDiffer(base, i, j);
    }
  }

  lemma {:induction false} SmallCountersDiffer(base: Bytes, i: nat, j: nat)
    requires |base| == NONCE_SIZE && i < j < COUNTERS
    ensures ChunkNonce(base, i) != ChunkNonce(base, j)
  {
    NonceInjective(base, i, j);
  }

  lemma {:induction false} CounterWraps(base: Bytes)
    requires |base| == NONCE_SIZE
    ensures ChunkNonce(base, 0) == ChunkNonce(base, COUNTERS)
  {
    NonceInjective(base, 0, COUNTERS);
  }

  /** A frame announces the length of its ciphertext, which is never zero and fits 32 bits. */
  lemma {:induction false} FrameLength(c: Cipher, key: Bytes, s: Sealing)
    requires c.Lawful() && |s.chunk| <= CHUNK
    ensures var f := Frame(c, key, s);
      && |f| == 4 + |s.chunk| + TAG
      && FromBigEndian(f[..4]) == |s.chunk| + TAG
      && f[4..] == c.seal(key, s.nonce, s.chunk)
  {
    var sealed := c.seal(key, s.nonce, s.chunk);
    Powers();
    BigEndianRoundTrip(|sealed|, 4);
    assert Frame(c, key, s)[..4] == BigEndian(|sealed|, 4);
  }

  lemma {:induction false} ZeroFrame()
    ensures FromBigEndian(BigEndian(0, 4)) == 0
  {
    BigEndianRoundTrip(0, 4);
  }

  lemma {:induction false} FramesSize(c: Cipher, key: Bytes, base: Bytes, plain: Bytes, counter: nat)
    requires c.Lawful() && |base| == NONCE_SIZE
    ensures |Frames(c, key, Plan(base, plain, counter))| == |plain| + 20 * ChunkCount(|plain|) + 4
    decreases |plain|
  {
    if plain != [] {
      var n := FirstChunk(|plain|);
      FramesSplit(c, key, base, plain, counter);
      FramesSize(c, key, base, plain[n..], counter + 1);
      assert ChunkCount(|plain|) == 1 + ChunkCount(|plain| - n);
    }
  }

  lemma {:induction false} EnvelopeSize(c: Cipher, password: string, salt: Bytes, base: Bytes, plain: Bytes)
    requires c.Lawful() && |salt| == SALT_SIZE && |base| == NONCE_SIZE
    ensures |Envelope(c, password, salt, base, plain)| == 39 + |plain| + 20 * ChunkCount(|plain|)
  {
    FramesSize(c, c.derive(password, salt), base, plain, 0);
  }

  lemma {:induction false} OpenEnd(c: Cipher, key: Bytes, base: Bytes, counter: nat, trailing: Bytes)
    requires |base| == NONCE_SIZE
    ensures OpenFrames(c, key, base, BigEndian(0, 4) + trailing, counter) == Opened([], true)
  {
    ZeroFrame();
    assert (BigEndian(0, 4) + trailing)[..4] == BigEndian(0, 4);
  }

  lemma {:induction false} FramesRoundTrip(c: Cipher, key: Bytes, base: Bytes, plain: Bytes, counter: nat,
      trailing: Bytes)
    requires c.Lawful() && |base| == NONCE_SIZE
    ensures OpenFrames(c, key, base, Frames(c, key, Plan(base, plain, counter)) + trailing, counter) ==
      Opened(plain, true)
    decreases |plain|
  {
    if plain == [] {
      OpenEnd(c, key, base, counter, trailing);
    } else {
      var n := FirstChunk(|plain|);
      var rest := Frames(c, key, Plan(base, plain[n..], counter + 1));
      FramesSplit(c, key, base, plain, counter);
      FramesRoundTrip(c, key, base, plain[n..], counter + 1, trailing);
      OpenStep(c, key, base, plain, counter, rest, trailing);
    }
  }

  lemma {:induction false} OpenStep(c: Cipher, key: Bytes, base: Bytes, plain: Bytes, counter: nat, rest: Bytes,
      trailing: Bytes)
    requires c.Lawful() && |base| == NONCE_SIZE && plain != []
    requires OpenFrames(c, key, base, rest + trailing, counter + 1) == Opened(plain[FirstChunk(|plain|)..], true)
    ensures var f := Frame(c, key, Sealing(ChunkNonce(base, counter), plain[..FirstChunk(|plain|)]));
      OpenFrames(c, key, base, (f + rest) + trailing, counter) == Opened(plain, true)
  {
    var n := FirstChunk(|plain|);
    var f := Frame(c, key, Sealing(ChunkNonce(base, counter), plain[..n]));
    OpenFirst(c, key, base, plain, counter, rest + trailing);
    assert (f + rest) + trailing == f + (rest + trailing) && plain[..n] + plain[n..] == plain;
  }

  lemma {:induction false} HeaderParts(c: Cipher, password: string, salt: Bytes, base: Bytes, frames: Bytes)
    requires |salt| == SALT_SIZE && |base| == NONCE_SIZE
    ensures Decode(c, password, Header(salt, base) + frames) == OpenFrames(c, c.derive(password, salt), base, frames, 0)
  {
    var bytes := Header(salt, base) + frames;
    assert bytes[..|MAGIC|] == MAGIC;
    assert bytes[|MAGIC|..|MAGIC| + SALT_SIZE] == salt;
    assert bytes[|MAGIC| + SALT_SIZE..HEADER_SIZE] == base;
    assert bytes[HEADER_SIZE..] == frames;
  }

  /** Decrypting an envelope returns exactly the plaintext; whatever follows the end marker
      is not looked at. */
  lemma {:induction false} RoundTrip(c: Cipher, password: string, salt: Bytes, base: Bytes, plain: Bytes,
      trailing: Bytes)
    requires c.Lawful() && |salt| == SALT_SIZE && |base| == NONCE_SIZE
    ensures Decode(c, password, Envelope(c, password, salt, base, plain) + trailing) == Opened(plain, true)
  {
    var frames := Frames(c, c.derive(password, salt), Plan(base, plain, 0));
    FramesRoundTrip(c, c.derive(password, salt), base, plain, 0, trailing);
    HeaderParts(c, password, salt, base, frames + trailing);
    HeaderFirst(Header(salt, base), frames, trailing);
  }

  lemma {:induction false} HeaderFirst(header: Bytes, frames: Bytes, trailing: Bytes)
    ensures (header + frames) + trailing == header + (frames + trailing)
  {}

  /** A frame that ends before its announced length. */
  lemma {:induction false} OpenCut(c: Cipher, key: Bytes, base: Bytes, bytes: Bytes, counter: nat, head: Bytes)
    requires |base| == NONCE_SIZE && |head| == 4 && head <= bytes && |bytes| - 4 < FromBigEndian(head)
    ensures OpenFrames(c, key, base, bytes, counter) == Opened([], false)
  {
    assert bytes[..4] == head;
  }

  /** Refused, with no more than a prefix of the plaintext recovered. */
  ghost predicate Refused(got: Opened, plain: Bytes) { !got.ok && got.plain <= plain }

  lemma {:induction false} RefusedOn(chunk: Bytes, got: Opened, plain: Bytes)
    requires Refused(got, plain)
    ensures Refused(Opened(chunk + got.plain, got.ok), chunk + plain)
  {}

  /** A whole first frame before what is refused. */
  lemma {:induction false} TruncatedLater(c: Cipher, key: Bytes, base: Bytes, plain: Bytes, counter: nat, cut: Bytes)
    requires c.Lawful() && |base| == NONCE_SIZE && plain != []
    requires Refused(OpenFrames(c, key, base, cut, counter + 1), plain[FirstChunk(|plain|)..])
    ensures var f := Frame(c, key, Sealing(ChunkNonce(base, counter), plain[..FirstChunk(|plain|)]));
      Refused(OpenFrames(c, key, base, f + cut, counter), plain)
  {
    var n := FirstChunk(|plain|);
    OpenFirst(c, key, base, plain, counter, cut);
    RefusedOn(plain[..n], OpenFrames(c, key, base, cut, counter + 1), plain[n..]);
    assert plain[..n] + plain[n..] == plain;
  }

  lemma {:induction false} FramesTruncated(c: Cipher, key: Bytes, base: Bytes, plain: Bytes, counter: nat, k: nat)
    requires c.Lawful() && |base| == NONCE_SIZE
    requires k < |Frames(c, key, Plan(base, plain, counter))|
    ensures Refused(OpenFrames(c, key, base, Frames(c, key, Plan(base, plain, counter))[..k], counter), plain)
    decreases |plain|
  {
    if plain != [] && k >= 4 {
      var n := FirstChunk(|plain|);
      var f := Frame(c, key, Sealing(ChunkNonce(base, counter), plain[..n]));
      var rest := Frames(c, key, Plan(base, plain[n..], counter + 1));
      FramesSplit(c, key, base, plain, counter);
      if k >= |f| {
        FramesTruncated(c, key, base, plain[n..], counter + 1, k - |f|);
        assert (f + rest)[..k] == f + rest[..k - |f|];
        TruncatedLater(c, key, base, plain, counter, rest[..k - |f|]);
      } else {
        OpenCut(c, key, base, (f + rest)[..k], counter, f[..4]);
      }
    }
  }

  /** Every proper prefix of an envelope is refused, and what was recovered from it before the
      refusal is a prefix of the plaintext. */
  lemma {:induction false} TruncationRefused(c: Cipher, password: string, salt: Bytes, base: Bytes, plain: Bytes,
      k: nat)
    requires c.Lawful() && |salt| == SALT_SIZE && |base| == NONCE_SIZE
    requires k < |Envelope(c, password, salt, base, plain)|
    ensures var got := Decode(c, password, Envelope(c, password, salt, base, plain)[..k]);
      !got.ok && got.plain <= plain
  {
    if k >= HEADER_SIZE {
      var key := c.derive(password, salt);
      var frames := Frames(c, key, Plan(base, plain, 0));
      FramesTruncated(c, key, base, plain, 0, k - HEADER_SIZE);
      HeaderParts(c, password, salt, base, frames[..k - HEADER_SIZE]);
      assert Envelope(c, password, salt, base, plain)[..k] == Header(salt, base) + frames[..k - HEADER_SIZE];
    }
  }

  // ---------- Streams ----------

  datatype ReadError = NoError | EOF | UnexpectedEOF | Failed

  /** A byte source that may fail at any read. */
  class Reader {
    var data: Bytes // what has not been read yet
    ghost var faulted: bool

    constructor (data: Bytes)
      ensures this.data == data && !faulted
    {
      this.data, faulted := data, false;
    }

    method ReadFull(n: nat) returns (buf: Bytes, err: ReadError)
      modifies this
      ensures old(faulted) ==> faulted
      ensures err == Failed ==> faulted
      ensures err != Failed ==> faulted == old(faulted) && old(data) == buf + data
      ensures err == NoError ==> |buf| == n
      ensures err == EOF ==> n > 0 && buf == [] && data == []
      ensures err == UnexpectedEOF ==> 0 < |buf| < n && data == []
    {
      var fail: bool := *;
      if fail {
        var lost: int := *;
        if 0 < lost <= |data| { data := data[lost..]; }
        faulted := true;
        return [], Failed;
      }
      if |data| >= n {
        buf, data, err := data[..n], data[n..], NoError;
      } else {
        err := if data == [] then EOF else UnexpectedEOF;
        buf, data := data, [];
      }
    }
  }

  /** A byte sink that may fail at any write, after taking part of it. */
  class Writer {
    var out: Bytes
    ghost var faulted: bool

    constructor ()
      ensures out == [] && !faulted
    {
      out, faulted := [], false;
    }

    method Write(p: Bytes) returns (ok: bool)
      modifies this
      ensures old(out) <= out <= old(out) + p
      ensures ok ==> out == old(out) + p && faulted == old(faulted)
      ensures !ok ==> faulted
    {
      var taken: int := *;
      if 0 <= taken < |p| {
        out := out + p[..taken];
        faulted := true;
        return false;
      }
      out := out + p;
      ok := true;
    }
  }

  /** Handing over the first part of what is still to be written. */
  lemma {:induction false} Handover(out: Bytes, part: Bytes, rest: Bytes, total: Bytes)
    requires out + (part + rest) == total
    ensures (out + part) + rest == total
  {
    assert (out + part) + rest == out + (part + rest);
  }

  /** A write that took some of the next part leaves a prefix of the total. */
  lemma {:induction false} PartWritten(start: Bytes, out: Bytes, part: Bytes, rest: Bytes, total: Bytes, now: Bytes)
    requires start <= out <= now <= out + part
    requires out + (part + rest) == total
    ensures start <= now <= total
  {
    assert total == (out + part) + rest;
    assert out + part <= total;
  }

  lemma {:induction false} NextFrame(c: Cipher, key: Bytes, base: Bytes, buf: Bytes, rest: Bytes, counter: nat)
    requires |base| == NONCE_SIZE && buf != []
    requires |buf| == CHUNK || (|buf| < CHUNK && rest == [])
    ensures var sealed := c.seal(key, ChunkNonce(base, counter), buf);
      Frames(c, key, Plan(base, buf + rest, counter))
      == BigEndian(|sealed|, 4) + (sealed + Frames(c, key, Plan(base, rest, counter + 1)))
  {
    var data := buf + rest;
    var plan := Plan(base, data, counter);
    assert data[..|buf|] == buf && data[|buf|..] == rest;
    assert plan[1..] == Plan(base, rest, counter + 1);
    assert plan[0] == Sealing(ChunkNonce(base, counter), buf);
  }

  /** Encrypts what the reader holds.  A successful run writes the envelope; a failed one
      leaves a prefix of it. */
  method EncryptStream(rc: Reader, c: Cipher, password: string, salt: Bytes, base: Bytes, w: Writer)
    returns (ok: bool)
    requires |base| == NONCE_SIZE
    modifies rc, w
    ensures ok ==> w.out == old(w.out) + Envelope(c, password, salt, base, old(rc.data))
    ensures old(w.out) <= w.out <= old(w.out) + Envelope(c, password, salt, base, old(rc.data))
    ensures !ok ==> rc.faulted || w.faulted
  {
    var key := c.derive(password, salt);
    ghost var total := w.out + Envelope(c, password, salt, base, rc.data);
    ghost var frames := Frames(c, key, Plan(base, rc.data, 0));
    assert w.out + ((MAGIC + salt) + (base + frames)) == total;
    ok := w.Write(MAGIC + salt);
    if !ok { PartWritten(old(w.out), old(w.out), MAGIC + salt, base + frames, total, w.out); return; }
    Handover(old(w.out), MAGIC + salt, base + frames, total);
    ghost var out := w.out;
    ok := w.Write(base);
    if !ok { PartWritten(old(w.out), out, base, frames, total, w.out); return; }
    Handover(out, base, frames, total);
    ok := EncryptFrames(rc, c, key, base, w, old(w.out), total);
  }

  method EncryptFrames(rc: Reader, c: Cipher, key: Bytes, base: Bytes, w: Writer, ghost start: Bytes,
      ghost total: Bytes)
    returns (ok: bool)
    requires |base| == NONCE_SIZE
    requires w.out + Frames(c, key, Plan(base, rc.data, 0)) == total && start <= w.out
    modifies rc, w
    ensures start <= w.out <= total
    ensures ok ==> w.out == total
    ensures !ok ==> rc.faulted || w.faulted
  {
    var counter := 0;
    while true
      invariant w.out + Frames(c, key, Plan(base, rc.data, counter)) == total
      invariant start <= w.out
      decreases |rc.data|
    {
      var buf, err := rc.ReadFull(CHUNK);
      if err == Failed { return false; }
      if |buf| > 0 {
        NextFrame(c, key, base, buf, rc.data, counter);
        var sealed := c.seal(key, ChunkNonce(base, counter), buf);
        ghost var rest := Frames(c, key, Plan(base, rc.data, counter + 1));
        ghost var out := w.out;
        ok := w.Write(BigEndian(|sealed|, 4));
        if !ok { PartWritten(start, out, BigEndian(|sealed|, 4), sealed + rest, total, w.out); return; }
        Handover(out, BigEndian(|sealed|, 4), sealed + rest, total);
        out := w.out;
        ok := w.Write(sealed);
        if !ok { PartWritten(start, out, sealed, rest, total, w.out); return; }
        Handover(out, sealed, rest, total);
        counter := counter + 1;
      }
      if err != NoError { break; }
    }
    assert Plan(base, rc.data, counter) == [];
    ok := w.Write(BigEndian(0, 4));
  }

  /** Decrypts what the reader holds.  Success means the whole of `Decode` was written and the
      end marker was seen; a failure leaves a prefix of it, and without a fault of the reader or
      the writer the verdict is the one of `Decode`. */
  method DecryptStream(r: Reader, c: Cipher, password: string, w: Writer) returns (ok: bool)
    requires !r.faulted && !w.faulted
    modifies r, w
    ensures var got := Decode(c, password, old(r.data));
      && old(w.out) <= w.out <= old(w.out) + got.plain
      && (ok ==> got.ok && w.out == old(w.out) + got.plain)
      && (!r.faulted && !w.faulted ==> ok == got.ok)
  {
    ghost var bytes := r.data;
    var header, err := r.ReadFull(HEADER_SIZE);
    if err != NoError { return false; }
    assert bytes[..|MAGIC|] == header[..|MAGIC|];
    if header[..|MAGIC|] != MAGIC { return false; }
    var salt := header[|MAGIC|..|MAGIC| + SALT_SIZE];
    var base := header[|MAGIC| + SALT_SIZE..];
    assert bytes[|MAGIC|..|MAGIC| + SALT_SIZE] == salt && bytes[|MAGIC| + SALT_SIZE..HEADER_SIZE] == base;
    assert bytes[HEADER_SIZE..] == r.data;
    ok := DecryptFrames(r, c, c.derive(password, salt), base, w);
  }

  /** What the next frame says: the end marker, a chunk, or that it cannot be read. */
  datatype Received = End | Plain(plain: Bytes) | Broken

  /** How the rest of the frames goes on from the next one. */
  ghost predicate GoesOn(f: Received, c: Cipher, key: Bytes, base: Bytes, data: Bytes, rest: Bytes, counter: nat)
    requires |base| == NONCE_SIZE
  {
    var got := OpenFrames(c, key, base, data, counter);
    match f
    case End => got == Opened([], true)
    case Broken => got == Opened([], false)
    case Plain(plain) =>
      var next := OpenFrames(c, key, base, rest, counter + 1);
      |rest| < |data| && got == Opened(plain + next.plain, next.ok)
  }

  lemma {:induction false} FrameOpens(c: Cipher, key: Bytes, base: Bytes, size: Bytes, sealed: Bytes, rest: Bytes,
      counter: nat)
    requires |base| == NONCE_SIZE && |size| == 4 && |sealed| == FromBigEndian(size) > 0
    ensures var opening := c.open(key, ChunkNonce(base, counter), sealed);
      GoesOn(if opening.Some? then Plain(opening.value) else Broken, c, key, base, size + (sealed + rest), rest,
        counter)
  {
    var data := size + (sealed + rest);
    assert data[..4] == size && data[4..4 + |sealed|] == sealed && data[4 + |sealed|..] == rest;
  }

  /** Reads the next frame; only a failing reader makes it say nothing about the data. */
  method ReadFrame(r: Reader, c: Cipher, key: Bytes, base: Bytes, counter: nat) returns (f: Received)
    requires !r.faulted && |base| == NONCE_SIZE
    modifies r
    ensures if r.faulted then f == Broken else GoesOn(f, c, key, base, old(r.data), r.data, counter)
  {
    ghost var data := r.data;
    var size, err := r.ReadFull(4);
    if err != NoError { return Broken; }
    assert data[..4] == size;
    var n := FromBigEndian(size);
    if n == 0 { return End; }
    var sealed;
    sealed, err := r.ReadFull(n);
    if err != NoError { return Broken; }
    FrameOpens(c, key, base, size, sealed, r.data, counter);
    var opening := c.open(key, ChunkNonce(base, counter), sealed);
    f := if opening.Some? then Plain(opening.value) else Broken;
  }

  method DecryptFrames(r: Reader, c: Cipher, key: Bytes, base: Bytes, w: Writer) returns (ok: bool)
    requires !r.faulted && !w.faulted && |base| == NONCE_SIZE
    modifies r, w
    ensures var got := OpenFrames(c, key, base, old(r.data), 0);
      && old(w.out) <= w.out <= old(w.out) + got.plain
      && (ok ==> got.ok && w.out == old(w.out) + got.plain)
      && (!r.faulted && !w.faulted ==> ok == got.ok)
  {
    ghost var got := OpenFrames(c, key, base, r.data, 0);
    ghost var total := w.out + got.plain;
    var counter := 0;
    while true
      invariant !r.faulted && !w.faulted
      invariant w.out + OpenFrames(c, key, base, r.data, counter).plain == total
      invariant OpenFrames(c, key, base, r.data, counter).ok == got.ok
      invariant old(w.out) <= w.out
      decreases |r.data|
    {
      ghost var out := w.out;
      var f := ReadFrame(r, c, key, base, counter);
      if !f.Plain? { return f.End?; }
      ghost var next := OpenFrames(c, key, base, r.data, counter + 1);
      assert out + (f.plain + next.plain) == total;
      ok := w.Write(f.plain);
      if !ok { PartWritten(old(w.out), out, f.plain, next.plain, total, w.out); return; }
      Handover(out, f.plain, next.plain, total);
      counter := counter + 1;
    }
  }
}
