/**
 The encrypted control stream (internal/airplay/wire.go): plaintext cut into frames of at
 most 1024 bytes, each sealed under a counter nonce, and the peer that reads it back. The
 cipher is a parameter; all that is asked of it is that Open undoes Seal.
 */
module SecureWire {
  import opened Collections
  import opened Wrappers
  import opened ByteOrder

  type Bytes = seq<Byte>

  datatype Cipher = Cipher(seal: (Bytes, Bytes, Bytes) -> Bytes, open: (Bytes, Bytes, Bytes) -> Option<Bytes>)

  const TAG: nat := 16

  const FRAME: nat := 1024

  const WRAP: nat := 0x1_0000_0000_0000_0000

  /** Open undoes Seal, and Seal adds the tag. */
  ghost predicate Undoes(c: Cipher) {
    forall nonce, plain, header ::
        |c.seal(nonce, plain, header)| == |plain| + TAG
        && c.open(nonce, c.seal(nonce, plain, header), header) == Some(plain)
  }

  function Header(n: nat): Bytes { LittleEndian(n, 2) }

  /** Twelve bytes: four zeros and the 64-bit counter. */
  function Nonce(counter: nat): Bytes { [0, 0, 0, 0] + LittleEndian(counter % WRAP, 8) }

  lemma NonceDetermines(j: nat, k: nat)
    requires j < WRAP && k < WRAP && Nonce(j) == Nonce(k)
    ensures j == k
  {
    hide LittleEndian, LittleNumber, Power256;
    Power256Of8();
    assert LittleEndian(j, 8) == Nonce(j)[4..] && LittleEndian(k, 8) == Nonce(k)[4..];
    NumberOfLittleEndian(j, 8);
    NumberOfLittleEndian(k, 8);
  }

  /******* Frames *******/

  function Chunks(p: Bytes): seq<Bytes> {
    if p == [] then [] else [p[..Min(FRAME, |p|)]] + Chunks(p[Min(FRAME, |p|)..])
  }

  ghost predicate Fit(chunks: seq<Bytes>) { forall i | 0 <= i < |chunks| :: 1 <= |chunks[i]| <= FRAME }

  /** Frames carry 1 to 1024 bytes and lose none. */
  lemma {:induction false} ChunksFit(p: Bytes)
    ensures Fit(Chunks(p)) && Flatten(Chunks(p)) == p
  {
    if p != [] { ChunksFit(p[Min(FRAME, |p|)..]); }
  }

  /** Every frame but the last is full. */
  lemma {:induction false} ChunksAreFull(p: Bytes)
    ensures |Chunks(p)| == (|p| + 1023) / 1024
    ensures forall i | 0 <= i < |Chunks(p)| :: |Chunks(p)[i]| == if i < |Chunks(p)| - 1 then 1024 else |p| - 1024 * i
  {
    if p != [] {
      var rest := p[Min(FRAME, |p|)..];
      ChunksAreFull(rest);
      assert Chunks(p) == [p[..Min(FRAME, |p|)]] + Chunks(rest);
    }
  }

  function Frame(c: Cipher, counter: nat, chunk: Bytes): Bytes {
    Header(|chunk|) + c.seal(Nonce(counter), chunk, Header(|chunk|))
  }

  function Wire(c: Cipher, counter: nat, chunks: seq<Bytes>): Bytes
    decreases |chunks|
  {
    if chunks == [] then [] else Frame(c, counter, chunks[0]) + Wire(c, counter + 1, chunks[1..])
  }

  lemma Associative(a: Bytes, b: Bytes, c: Bytes)
    ensures (a + b) + c == a + (b + c)
  {}

  lemma {:induction false} WireSplits(c: Cipher, counter: nat, a: seq<Bytes>, b: seq<Bytes>)
    ensures Wire(c, counter, a + b) == Wire(c, counter, a) + Wire(c, counter + |a|, b)
    decreases |a|
  {
    hide Frame;
    if a == [] {
      assert a + b == b;
    } else {
      var whole, rest, f := a + b, a[1..], Frame(c, counter, a[0]);
      assert whole[1..] == rest + b && whole[0] == a[0];
      assert Wire(c, counter, whole) == f + Wire(c, counter + 1, rest + b)
          && Wire(c, counter, a) == f + Wire(c, counter + 1, rest);
      hide Wire;
      WireSplits(c, counter + 1, rest, b);
      Associative(f, Wire(c, counter + 1, rest), Wire(c, counter + |a|, b));
    }
  }

  /**
   The bytes of a frame: the length in two bytes, least significant first, and the chunk sealed
   with these two as its authenticated data, under four zero bytes and the counter.
   */
  lemma FrameMeans(c: Cipher, counter: nat, chunk: Bytes) returns (nonce: Bytes)
    requires Undoes(c) && |chunk| < 0x1_0000 && counter < 0x1_0000_0000_0000_0000
    ensures var f := Frame(c, counter, chunk);
            && |f| == 2 + |chunk| + 16 && f[0] == |chunk| % 256 && f[1] == |chunk| / 256
            && f[2..] == c.seal(nonce, chunk, f[..2])
    ensures |nonce| == 12 && nonce[..4] == [0, 0, 0, 0] && LittleNumber(nonce[4..]) == counter
  {
    nonce := Nonce(counter);
    var n, h, f := |chunk|, Header(|chunk|), Frame(c, counter, chunk);
    TwoBytes(n);
    assert f[..2] == h && f[2..] == c.seal(nonce, chunk, h);
    assert nonce[4..] == LittleEndian(counter, 8);
    Power256Of8();
    NumberOfLittleEndian(counter, 8);
  }

  lemma TwoBytes(n: nat)
    requires n < 0x1_0000
    ensures |Header(n)| == 2 && Header(n)[0] == n % 256 && Header(n)[1] == n / 256
  {
    assert LittleEndian(n, 2) == [n % 256] + LittleEndian(n / 256, 1);
    assert LittleEndian(n / 256, 1) == [n / 256 % 256] + LittleEndian(n / 256 / 256, 0);
  }

  lemma OneFrame(c: Cipher, counter: nat, chunk: Bytes)
    ensures Wire(c, counter, [chunk]) == Frame(c, counter, chunk)
  {
    assert [chunk][1..] == [];
  }

  /** The frame at the front of a stream is told apart from what follows it, and opens to its chunk. */
  lemma FrontFrame(c: Cipher, counter: nat, chunks: seq<Bytes>)
    requires Undoes(c) && Fit(chunks) && chunks != []
    ensures var w, n := Wire(c, counter, chunks), |chunks[0]|;
            && |w| >= 2 + n + TAG && LittleNumber(w[..2]) == n
            && c.open(Nonce(counter), w[2..2 + n + TAG], w[..2]) == Some(chunks[0])
            && w[2 + n + TAG..] == Wire(c, counter + 1, chunks[1..])
  {
    var w, n, h := Wire(c, counter, chunks), |chunks[0]|, Header(|chunks[0]|);
    var box := c.seal(Nonce(counter), chunks[0], h);
    assert w == h + box + Wire(c, counter + 1, chunks[1..]);
    assert w[..2] == h && w[2..2 + n + TAG] == box;
    Power256Of8();
    NumberOfLittleEndian(n, 2);
  }

  /******* Nonces *******/

  /** The counter of the i-th sealing: the frames before it that were written in full. */
  function CounterOf(written: seq<bool>, i: nat): nat
    requires i <= |written|
  {
    if i == 0 then 0 else CounterOf(written, i - 1) + if written[i - 1] then 1 else 0
  }

  lemma {:induction false} CounterGrows(written: seq<bool>, i: nat, j: nat)
    requires i <= j <= |written|
    ensures CounterOf(written, i) <= CounterOf(written, j) <= CounterOf(written, i) + j - i
    ensures i < j && written[i] ==> CounterOf(written, i) < CounterOf(written, j)
    decreases j
  {
    if i < j { CounterGrows(written, i, j - 1); }
  }

  ghost predicate AllButLast(written: seq<bool>) { forall i | 0 <= i < |written| - 1 :: written[i] }

  lemma DistinctCounters(written: seq<bool>, i: nat, j: nat)
    requires |written| < WRAP && AllButLast(written) && i < j < |written|
    ensures Nonce(CounterOf(written, i)) != Nonce(CounterOf(written, j))
  {
    hide Nonce;
    CounterGrows(written, i, j);
    CounterGrows(written, 0, j);
    var a, b := CounterOf(written, i), CounterOf(written, j);
    if Nonce(a) == Nonce(b) { NonceDetermines(a, b); }
  }

  /** One call of Seal: the nonce and the plaintext it was given. */
  datatype Sealing = Sealing(nonce: Bytes, chunk: Bytes)

  /** Every sealing used the counter of the frames written before it. */
  ghost predicate Accounts(sealings: seq<Sealing>, written: seq<bool>) {
    |sealings| == |written| && forall i | 0 <= i < |sealings| :: sealings[i].nonce == Nonce(CounterOf(written, i))
  }

  lemma AccountsGrow(sealings: seq<Sealing>, written: seq<bool>, chunk: Bytes, ok: bool)
    requires Accounts(sealings, written)
    ensures Accounts(sealings + [Sealing(Nonce(CounterOf(written, |written|)), chunk)], written + [ok])
    ensures CounterOf(written + [ok], |written| + 1) == CounterOf(written, |written|) + if ok then 1 else 0
  {
    hide Nonce;
    forall i: nat | i <= |written|
      ensures CounterOf(written + [ok], i) == CounterOf(written, i)
    {
      SameCounter(written, ok, i);
    }
  }

  lemma {:induction false} SameCounter(written: seq<bool>, ok: bool, i: nat)
    requires i <= |written|
    ensures CounterOf(written + [ok], i) == CounterOf(written, i)
  {
    if i > 0 { SameCounter(written, ok, i - 1); }
  }

  lemma {:induction false} AllCounted(written: seq<bool>, i: nat)
    requires i <= |written| && forall k | 0 <= k < i :: written[k]
    ensures CounterOf(written, i) == i
  {
    if i > 0 { AllCounted(written, i - 1); }
  }

  ghost predicate NoncesDiffer(sealings: seq<Sealing>) {
    forall i, j | 0 <= i < j < |sealings| :: sealings[i].nonce != sealings[j].nonce
  }

  /** Over fewer than 2^64 sealings no nonce is used twice exactly when nothing is sealed after a failed write. */
  lemma NoncesDistinctExactly(sealings: seq<Sealing>, written: seq<bool>)
    requires Accounts(sealings, written) && |written| < WRAP
    ensures NoncesDiffer(sealings) <==> AllButLast(written)
  {
    hide Nonce;
    if AllButLast(written) {
      forall i, j | 0 <= i < j < |written| ensures sealings[i].nonce != sealings[j].nonce {
        DistinctCounters(written, i, j);
      }
    } else {
      var i :| 0 <= i < |written| - 1 && !written[i];
      var j := i + 1;
      assert CounterOf(written, j) == CounterOf(written, i);
      assert sealings[i].nonce == sealings[j].nonce;
    }
  }

  /******* The two ends *******/

  datatype ReadResult = Data(bytes: Bytes) | Error

  /** What was read is a prefix of what was written. */
  lemma ReceivedIsPrefix(received: Bytes, pending: Bytes, chunks: seq<Bytes>, n: nat)
    requires n <= |chunks| && received + pending == Flatten(chunks[..n])
    ensures received <= Flatten(chunks)
    ensures n == |chunks| && pending == [] ==> received == Flatten(chunks)
  {
    assert chunks == chunks[..n] + chunks[n..];
    FlattenSplit(chunks[..n], chunks[n..]);
    assert received + pending + Flatten(chunks[n..]) == received + (pending + Flatten(chunks[n..]));
  }

  /** The chunks sealed so far, with one more. */
  lemma OneMoreChunk(c: Cipher, chunks: seq<Bytes>, chunk: Bytes)
    ensures Wire(c, 0, chunks + [chunk]) == Wire(c, 0, chunks) + Frame(c, |chunks|, chunk)
    ensures Flatten(chunks + [chunk]) == Flatten(chunks) + chunk
  {
    WireSplits(c, 0, chunks, [chunk]);
    OneFrame(c, |chunks|, chunk);
    FlattenSplit(chunks, [chunk]);
    assert Flatten([chunk]) == chunk + Flatten([chunk][1..]);
  }

  /** One turn of Write's loop. */
  lemma NextChunk(start: seq<Bytes>, before: seq<Bytes>, p: Bytes, total: nat, n: nat)
    requires total < |p| && n == Min(FRAME, |p| - total)
    requires start + Chunks(p) == before + Chunks(p[total..])
    ensures p[total..][n..] == p[total + n..] && p[..total + n] == p[..total] + p[total..][..n]
    ensures var chunk := p[total..][..n];
            1 <= |chunk| <= FRAME && start + Chunks(p) == (before + [chunk]) + Chunks(p[total + n..])
                && Flatten(before + [chunk]) == Flatten(before) + chunk
  {
    var rest := p[total..];
    var chunk := rest[..n];
    assert rest[n..] == p[total + n..];
    assert Chunks(rest) == [chunk] + Chunks(rest[n..]);
    FlattenSplit(before, [chunk]);
    assert Flatten([chunk]) == chunk + Flatten([chunk][1..]);
    hide Chunks, Flatten;
  }

  function Slice(w: Bytes, from: nat, count: nat): Bytes
    requires from + count <= |w|
  {
    w[from..from + count]
  }

  lemma SlicePrefix(whole: Bytes, part: Bytes, front: Bytes, tail: Bytes, from: nat, count: nat)
    requires part <= whole && whole == front + tail && |front| + from + count <= |part|
    ensures Slice(part, |front| + from, count) == Slice(tail, from, count)
  {}

  /** What the peer finds on the wire behind the frames it has consumed. */
  lemma FrameAhead(c: Cipher, wire: Bytes, chunks: seq<Bytes>, j: nat)
    requires Undoes(c) && Fit(chunks) && j <= |chunks|
    requires wire <= Wire(c, 0, chunks) && |Wire(c, 0, chunks[..j])| <= |wire|
    ensures j == |chunks| ==> |wire| == |Wire(c, 0, chunks[..j])|
    ensures j < |chunks| ==> Ahead(c, wire, chunks, j, |Wire(c, 0, chunks[..j])|)
  {
    hide Wire, Frame, Undoes, Flatten, LittleNumber, Fit;
    if j == |chunks| {
      assert chunks[..j] == chunks;
    } else {
      var front, tail := Wire(c, 0, chunks[..j]), Wire(c, j, chunks[j..]);
      var at, n := |front|, |chunks[j]|;
      assert chunks == chunks[..j] + chunks[j..];
      WireSplits(c, 0, chunks[..j], chunks[j..]);
      FitTail(chunks, j);
      FrontFrame(c, j, chunks[j..]);
      assert chunks[..j + 1] == chunks[..j] + [chunks[j]];
      OneMoreChunk(c, chunks[..j], chunks[j]);
      FrameSize(c, j, chunks[j]);
      assert tail[..2] == Slice(tail, 0, 2) && tail[2..2 + n + TAG] == Slice(tail, 2, n + TAG);
      if |wire| - at >= 2 { SlicePrefix(Wire(c, 0, chunks), wire, front, tail, 0, 2); }
      if |wire| - at >= 2 + n + TAG { SlicePrefix(Wire(c, 0, chunks), wire, front, tail, 2, n + TAG); }
    }
  }

  lemma FitTail(chunks: seq<Bytes>, j: nat)
    requires Fit(chunks) && j <= |chunks|
    ensures Fit(chunks[j..])
  {}

  lemma FrameSize(c: Cipher, counter: nat, chunk: Bytes)
    requires Undoes(c)
    ensures |Frame(c, counter, chunk)| == 2 + |chunk| + TAG
  {}

  ghost predicate Ahead(c: Cipher, wire: Bytes, chunks: seq<Bytes>, j: nat, at: nat)
    requires j < |chunks| && at <= |wire|
  {
    var n := |chunks[j]|;
    && (|wire| - at >= 2 ==> LittleNumber(Slice(wire, at, 2)) == n)
    && (|wire| - at >= 2 + n + TAG ==>
       c.open(Nonce(j), Slice(wire, at + 2, n + TAG), Slice(wire, at, 2)) == Some(chunks[j]))
    && |Wire(c, 0, chunks[..j + 1])| == at + 2 + n + TAG
    && Flatten(chunks[..j + 1]) == Flatten(chunks[..j]) + chunks[j]
    && (wire == Wire(c, 0, chunks) ==> |wire| >= at + 2 + n + TAG)
  }

  /** The first j frames lie before `at`, and their plaintext is `plain`. */
  ghost predicate Consumed(c: Cipher, wire: Bytes, chunks: seq<Bytes>, j: nat, at: nat, plain: Bytes) {
    j <= |chunks| && at == |Wire(c, 0, chunks[..j])| <= |wire| && plain == Flatten(chunks[..j])
  }

  ghost predicate OnWire(c: Cipher, wire: Bytes, chunks: seq<Bytes>)
  {
    Undoes(c) && Fit(chunks) && wire <= Wire(c, 0, chunks)
  }

  /** The frame at `at`, read whole, checked for its length and opened under the peer's own counter. */
  function Opened(c: Cipher, wire: Bytes, at: nat, counter: nat): Option<Bytes>
    requires at <= |wire|
  {
    if |wire| - at < 2 then None
    else
      var header := Slice(wire, at, 2);
      var n := LittleNumber(header);
      if n == 0 || n > FRAME || |wire| - at < 2 + n + TAG then None
      else c.open(Nonce(counter), Slice(wire, at + 2, n + TAG), header)
  }

  /** A frame of no bytes, of more than 1024, or cut short is refused; any other is opened as it was sealed. */
  lemma OpenedMeans(c: Cipher, wire: Bytes, at: nat, counter: nat)
    requires at <= |wire| && counter < 0x1_0000_0000_0000_0000
    ensures |wire| < at + 2 ==> Opened(c, wire, at, counter).None?
    ensures |wire| >= at + 2 ==>
              var n, nonce := wire[at] + 256 * (wire[at + 1] as int), [0, 0, 0, 0] + LittleEndian(counter, 8);
              if 1 <= n <= 1024 && |wire| >= at + 2 + n + 16
              then Opened(c, wire, at, counter) == c.open(nonce, wire[at + 2..at + 2 + n + 16], wire[at..at + 2])
              else Opened(c, wire, at, counter).None?
  {
    hide LittleNumber, LittleEndian;
    if |wire| >= at + 2 { TwoByteNumber(Slice(wire, at, 2)); }
  }

  lemma TwoByteNumber(h: Bytes)
    requires |h| == 2
    ensures LittleNumber(h) == h[0] + 256 * (h[1] as int)
  {
    assert h[1..][1..] == [] && LittleNumber(h) == h[0] + 256 * LittleNumber(h[1..]);
    assert LittleNumber(h[1..]) == h[1] + 256 * LittleNumber([]);
  }

  /** What opens is the next chunk, and it does when its frame is all there. */
  lemma NextConsumed(c: Cipher, wire: Bytes, chunks: seq<Bytes>, j: nat, at: nat, plain: Bytes)
    requires OnWire(c, wire, chunks) && Consumed(c, wire, chunks, j, at, plain)
    ensures at <= |wire|
    ensures Opened(c, wire, at, j).Some? ==>
              && j < |chunks| && Opened(c, wire, at, j).value == chunks[j] != []
              && |wire| - at >= 2 && LittleNumber(Slice(wire, at, 2)) == |chunks[j]|
              && Consumed(c, wire, chunks, j + 1, at + 2 + |chunks[j]| + TAG, plain + chunks[j])
    ensures wire == Wire(c, 0, chunks) ==> (Opened(c, wire, at, j).Some? <==> j < |chunks|)
  {
    hide Wire, Undoes, Flatten, LittleNumber, Nonce, Slice;
    FrameAhead(c, wire, chunks, j);
  }

  lemma FitGrows(chunks: seq<Bytes>, chunk: Bytes)
    requires 1 <= |chunk| <= FRAME
    ensures Fit(chunks) ==> Fit(chunks + [chunk])
  {}

  lemma FrameIs(c: Cipher, counter: nat, chunk: Bytes)
    ensures Frame(c, counter, chunk) == Header(|chunk|) + c.seal(Nonce(counter), chunk, Header(|chunk|))
  {
    hide Nonce;
  }

  /** What the peer has consumed stays what it is when more is sealed and sent. */
  lemma StillConsumed(c: Cipher, wire: Bytes, part: Bytes, chunks: seq<Bytes>, chunk: Bytes, j: nat, at: nat,
          plain: Bytes)
    requires Consumed(c, wire, chunks, j, at, plain)
    ensures Consumed(c, wire + part, chunks + [chunk], j, at, plain)
  {
    hide Wire, Flatten;
    assert (chunks + [chunk])[..j] == chunks[..j];
  }

  /** One direction of a connection: the sender's counter, the bytes on the way, and the peer. */
  class Link {
    const cipher: Cipher
    var out: nat
    var wire: Bytes                   // all bytes handed to the connection
    var incoming: nat
    var pending: Bytes
    var at: nat                       // bytes of the wire the peer has consumed
    ghost var chunks: seq<Bytes>      // plaintext of every sealed frame
    ghost var written: seq<bool>      // which of them went out in full
    ghost var sealings: seq<Sealing>  // the calls of Seal
    ghost var received: Bytes

    ghost predicate Intact()
      reads this`written
    {
      forall i | 0 <= i < |written| :: written[i]
    }

    /** What the sender has sealed, and under which counter. */
    ghost predicate Counting()
      reads this`out, this`chunks, this`written, this`sealings
    {
      && Undoes(cipher) && Fit(chunks) && |written| == |chunks| == |sealings|
      && Accounts(sealings, written) && (forall i | 0 <= i < |chunks| :: sealings[i].chunk == chunks[i])
      && out == CounterOf(written, |written|)
    }

    /** The sender's side: the frames of the chunks, cut short only by a failed write. */
    ghost predicate Sending()
      reads this`out, this`wire, this`chunks, this`written
    {
      wire <= Wire(cipher, 0, chunks) && (Intact() ==> wire == Wire(cipher, 0, chunks) && out == |chunks|)
    }

    /** The peer's side: the frames it has consumed are what it has read, or has left to read. */
    ghost predicate Receiving()
      reads this`wire, this`chunks, this`incoming, this`pending, this`at, this`received
    {
      Consumed(cipher, wire, chunks, incoming, at, received + pending)
    }

    /** The peer can follow only until something is written after a failed write. */
    ghost predicate Valid()
      reads this
    {
      Counting() && at <= |wire| && (AllButLast(written) ==> Sending() && Receiving())
    }

    constructor (c: Cipher)
      requires Undoes(c)
      ensures Valid() && Intact() && received == [] && chunks == [] && sealings == [] && cipher == c
    {
      cipher := c;
      out, wire, incoming, pending, at := 0, [], 0, [], 0;
      chunks, written, sealings, received := [], [], [], [];
    }

    /** One frame: sealed under the counter, which moves on only if the write succeeds. */
    method WriteFrame(chunk: Bytes, fails: Option<nat>) returns (ok: bool)
      requires Valid() && 1 <= |chunk| <= FRAME
      modifies this`out, this`wire, this`chunks, this`written, this`sealings
      ensures Valid() && ok == fails.None?
      ensures chunks == old(chunks) + [chunk] && written == old(written) + [ok]
      ensures sealings == old(sealings) + [Sealing(Nonce(old(out)), chunk)] && out == old(out) + if ok then 1 else 0
      ensures ok ==> wire == old(wire) + Frame(cipher, old(out), chunk)
    {
      hide Wire, Flatten, Undoes, Nonce, Accounts, CounterOf, Frame, Fit, AllButLast, Consumed;
      OneMoreChunk(cipher, chunks, chunk);
      AccountsGrow(sealings, written, chunk, fails.None?);
      NextWritten(written, fails.None?);
      FitGrows(chunks, chunk);
      var header, nonce := Header(|chunk|), Nonce(out);
      var frame := header + cipher.seal(nonce, chunk, header);
      assert frame == Frame(cipher, out, chunk) by { FrameIs(cipher, out, chunk); }
      ok := fails.None?;
      var part := if ok then frame else frame[..Min(fails.value, |frame|)];
      assert wire + part <= wire + frame;
      if AllButLast(written) { StillConsumed(cipher, wire, part, chunks, chunk, incoming, at, received + pending); }
      wire := wire + part;
      if ok { out := out + 1; }
      chunks, written, sealings := chunks + [chunk], written + [ok], sealings + [Sealing(nonce, chunk)];
      assert written[|written| - 1] == ok;
    }

    /** Write: `fails(k)` says that the connection fails within the k-th frame, and where. */
    method Write(p: Bytes, fails: nat -> Option<nat>) returns (total: nat, ok: bool)
      requires Valid()
      modifies this`out, this`wire, this`chunks, this`written, this`sealings
      ensures Valid() && old(written) <= written && old(sealings) <= sealings
      ensures ok ==> total == |p| && chunks == old(chunks) + Chunks(p) && Flatten(chunks) == old(Flatten(chunks)) + p
      ensures ok ==> forall i | |old(written)| <= i < |written| :: written[i]
      ensures !ok ==>
              total < |p| && chunks != [] && Flatten(chunks[..|chunks| - 1]) == old(Flatten(chunks)) + p[..total]
      ensures !ok ==>
              |old(written)| < |written| && forall i | |old(written)| <= i < |written| ::
              written[i] == (i < |written| - 1)
      ensures old(Intact()) ==> ok == Intact()
    {
      hide Valid, Flatten;
      total, ok := 0, true;
      var rest, k := p, 0;
      ghost var start, startWritten, startSealings := chunks, written, sealings;
      ChunksFit(p);
      FlattenSplit(start, Chunks(p));
      assert p[0..] == p;
      while rest != []
        invariant Valid() && total <= |p| && rest == p[total..]
        invariant start + Chunks(p) == chunks + Chunks(rest)
        invariant Flatten(chunks) == Flatten(start) + p[..total]
        invariant startWritten <= written && startSealings <= sealings
        invariant forall i | |startWritten| <= i < |written| :: written[i]
        decreases |rest|
      {
        var n := Min(FRAME, |rest|);
        ghost var before := chunks;
        NextChunk(start, before, p, total, n);
        ok := WriteFrame(rest[..n], fails(k));
        if !ok {
          assert chunks[..|chunks| - 1] == before;
          assert !written[|written| - 1];
          return;
        }
        total, k := total + n, k + 1;
        rest := rest[n..];
      }
      assert Chunks([]) == [] && chunks + [] == chunks;
    }

    /** Read: what is left of the last frame, or the next frame opened. */
    method Read(size: nat) returns (r: ReadResult)
      requires Valid()
      modifies this`incoming, this`pending, this`at, this`received
      ensures Valid()
      ensures r.Data? ==> |r.bytes| <= size && received == old(received) + r.bytes
      ensures r.Error? ==> received == old(received) && size > 0 && old(pending) == []
      ensures AllButLast(written) ==> received <= Flatten(chunks) && (r.Data? && size > 0 ==> r.bytes != [])
      ensures Intact() ==> (r.Error? <==> size > 0 && old(pending) == [] && old(incoming) == |chunks|)
    {
      hide Wire, Undoes, Flatten, Fit, Sending, Counting;
      if AllButLast(written) { ReceivedIsPrefix(received, pending, chunks, incoming); }
      if size == 0 { return Data([]); }
      if pending == [] {
        var found := NextFrame();
        if !found { return Error; }
      }
      var n := Min(size, |pending|);
      r := Data(pending[..n]);
      ghost var whole := received + pending;
      received := received + pending[..n];
      pending := pending[n..];
      assert received + pending == whole;
      if AllButLast(written) { ReceivedIsPrefix(received, pending, chunks, incoming); }
    }

    /** The next frame is read whole, checked and opened under the peer's own counter. */
    method NextFrame() returns (ok: bool)
      requires Valid() && pending == []
      modifies this`incoming, this`pending, this`at
      ensures Valid() && received == old(received)
      ensures !ok ==> pending == [] && incoming == old(incoming)
      ensures AllButLast(written) && ok ==> pending != [] && old(incoming) < |chunks|
      ensures Intact() ==> ok == (old(incoming) < |chunks|)
    {
      assert AllButLast(written) ==> OnWire(cipher, wire, chunks) && (Intact() ==> wire == Wire(cipher, 0, chunks));
      if AllButLast(written) { NextConsumed(cipher, wire, chunks, incoming, at, received + pending); }
      hide OnWire, Consumed, Opened, Sending, Counting;
      assert received + pending == received;
      var plain := Opened(cipher, wire, at, incoming);
      ok := plain.Some?;
      if ok {
        FrameEnd(cipher, wire, at, incoming);
        at := at + 2 + LittleNumber(Slice(wire, at, 2)) + TAG;
        pending := plain.value;
        incoming := incoming + 1;
      }
    }

    /** No nonce has been used twice exactly while nothing was written after a failed write. */
    lemma NoncesOfLink()
      requires Valid() && |written| < WRAP
      ensures NoncesDiffer(sealings) <==> AllButLast(written)
    {
      NoncesDistinctExactly(sealings, written);
    }
  }

  lemma FrameEnd(c: Cipher, wire: Bytes, at: nat, counter: nat)
    requires at <= |wire| && Opened(c, wire, at, counter).Some?
    ensures |wire| - at >= 2 && at + 2 + LittleNumber(Slice(wire, at, 2)) + TAG <= |wire|
  {
    hide LittleNumber, Nonce;
  }

  /** What the sender writes after a failed write is sealed under the nonce used before it. */
  method WriteAfterFailure(c: Cipher, lost: Byte, sent: Byte) returns (link: Link)
    requires Undoes(c) && lost != sent
    ensures link.Valid() && |link.sealings| == 2
    ensures link.sealings[0].nonce == link.sealings[1].nonce && link.sealings[0].chunk != link.sealings[1].chunk
  {
    link := new Link(c);
    var ok := link.WriteFrame([lost], Some(0));
    ok := link.WriteFrame([sent], None);
  }

  lemma NextWritten(written: seq<bool>, ok: bool)
    ensures AllButLast(written + [ok]) <==> forall i | 0 <= i < |written| :: written[i]
    ensures AllButLast(written + [ok]) ==> AllButLast(written)
    ensures AllButLast(written + [ok]) ==> CounterOf(written, |written|) == |written|
  {
    var all := written + [ok];
    assert forall i | 0 <= i < |written| :: all[i] == written[i];
    if AllButLast(all) { AllCounted(written, |written|); }
  }
}
