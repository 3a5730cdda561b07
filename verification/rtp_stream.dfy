/**
 The RTP send loop (internal/airplay/session.go, internal/airplay/audio.go): wrapping
 counters, the window kept for retransmission, and the padding of the last packet. Fields
 of the header are those of section 5.1 of RFC 3550. Sealing and the ALAC element are
 parameters, and so are the clock, the network and the end of the session.
 */
module RtpStream {
  import opened Collections
  import opened ByteOrder
  import S = SecureWire
  import StreamTime

  type Bytes = seq<Byte>

  const FRAMES: nat := 352

  const PCM_BYTES: nat := 1408

  const WINDOW: nat := 512

  /** What a session is set up with: its first sequence number and timestamp, its source, its sealing. */
  datatype Session = Session(first: nat, origin: nat, source: nat, seal: (Bytes, Bytes, Bytes) -> Bytes,
      alac: Bytes -> Bytes)

  predicate Proper(e: Session) { e.first < 65536 && e.origin < 0x1_0000_0000 && e.source < 0x1_0000_0000 }

  /******* Packets *******/

  function SeqAt(e: Session, k: nat): nat { (e.first + k) % 65536 }

  function StampAt(e: Session, k: nat): nat { (e.origin + FRAMES * k) % 0x1_0000_0000 }

  function Zeros(n: nat): (z: Bytes)
    ensures |z| == n
  {
    if n == 0 then [] else [0] + Zeros(n - 1)
  }

  /** The PCM of the k-th packet, padded. */
  function Block(pcm: Bytes, k: nat): (b: Bytes)
    requires PCM_BYTES * k <= |pcm|
    ensures |b| == PCM_BYTES
  {
    var end := Min(PCM_BYTES * (k + 1), |pcm|);
    pcm[PCM_BYTES * k..end] + Zeros(PCM_BYTES - (end - PCM_BYTES * k))
  }

  function Count(pcm: Bytes): nat { (|pcm| + PCM_BYTES - 1) / PCM_BYTES }

  /** Version 2, payload type 96, the marker on the first packet. */
  function Header(sequence: nat, stamp: nat, source: nat, first: bool): Bytes {
    [0x80, if first then 0xE0 else 0x60] + BigEndian(sequence, 2) + BigEndian(stamp, 4) + BigEndian(source, 4)
  }

  function Packet(e: Session, sequence: nat, stamp: nat, counter: nat, block: Bytes): Bytes {
    Header(sequence, stamp, e.source, counter == 0) +
    e.seal(S.Nonce(counter), e.alac(block), BigEndian(stamp, 4) + BigEndian(e.source, 4)) +
    LittleEndian(counter % S.WRAP, 8)
  }

  /** The k-th packet of a stream. */
  function PacketAt(e: Session, pcm: Bytes, k: nat): Bytes
    requires PCM_BYTES * k <= |pcm|
  {
    Packet(e, SeqAt(e, k), StampAt(e, k), k, Block(pcm, k))
  }

  /** The fields of the header read back. */
  lemma HeaderFields(sequence: nat, stamp: nat, source: nat, first: bool)
    requires sequence < 65536 && stamp < 0x1_0000_0000 && source < 0x1_0000_0000
    ensures var h := Header(sequence, stamp, source, first);
            && |h| == 12 && Number(h[2..4]) == sequence && Number(h[4..8]) == stamp && Number(h[8..12]) == source
            && h[0] == 0x80 && h[1] == if first then 0xE0 else 0x60
  {
    hide BigEndian, Number, Power256;
    var h := Header(sequence, stamp, source, first);
    Power256Of8();
    assert h[2..4] == BigEndian(sequence, 2) && h[4..8] == BigEndian(stamp, 4) && h[8..12] == BigEndian(source, 4);
    NumberOfBigEndian(sequence, 2);
    NumberOfBigEndian(stamp, 4);
    NumberOfBigEndian(source, 4);
  }

  /** The sequence number wraps, the nonce does not: no two of a stream's packets share one. */
  lemma NoncesNeverRepeat(j: nat, k: nat)
    requires j < k < S.WRAP
    ensures S.Nonce(j) != S.Nonce(k)
  {
    if S.Nonce(j) == S.Nonce(k) { S.NonceDetermines(j, k); }
  }

  /**
   The k-th packet of a stream, read off its bytes: the sequence number goes up by one and the
   timestamp by 352 from packet to packet, the first one is marked, and 352 frames of the input,
   zeros behind its end, are sealed with timestamp and source as authenticated data under the
   packet's number, which follows in eight bytes.
   */
  lemma PacketMeans(e: Session, pcm: Bytes, k: nat) returns (block: Bytes, nonce: Bytes)
    requires Proper(e) && 1408 * k <= |pcm| && k < 0x1_0000_0000_0000_0000
    ensures var p := PacketAt(e, pcm, k);
            var box := e.seal(nonce, e.alac(block), p[4..12]);
            && |p| == 12 + |box| + 8 && p[12..12 + |box|] == box && LittleNumber(p[12 + |box|..]) == k
            && p[0] == 0x80 && p[1] == (if k == 0 then 0xE0 else 0x60)
            && Number(p[2..4]) == (e.first + k) % 0x1_0000 && Number(p[4..8]) == (e.origin + 352 * k) % 0x1_0000_0000
            && Number(p[8..12]) == e.source
    ensures |nonce| == 12 && nonce[..4] == [0, 0, 0, 0] && LittleNumber(nonce[4..]) == k
    ensures |block| == 1408 && forall i | 0 <= i < 1408 ::
            block[i] == if 1408 * k + i < |pcm| then pcm[1408 * k + i] else 0
  {
    hide BigEndian, LittleEndian, Number, LittleNumber, Zeros, Power256, SeqAt, StampAt;
    nonce, block := S.Nonce(k), Block(pcm, k);
    NumbersFit(e, k);
    var h := Header(SeqAt(e, k), StampAt(e, k), e.source, k == 0);
    var box := e.seal(nonce, e.alac(block), BigEndian(StampAt(e, k), 4) + BigEndian(e.source, 4));
    var p := PacketAt(e, pcm, k);
    HeaderFields(SeqAt(e, k), StampAt(e, k), e.source, k == 0);
    assert p == h + box + LittleEndian(k, 8);
    assert h[4..12] == BigEndian(StampAt(e, k), 4) + BigEndian(e.source, 4);
    assert p[4..12] == h[4..12] && p[2..4] == h[2..4] && p[4..8] == h[4..8] && p[8..12] == h[8..12];
    assert p[12..12 + |box|] == box && p[12 + |box|..] == LittleEndian(k, 8);
    assert nonce[4..] == LittleEndian(k, 8);
    Power256Of8();
    NumberOfLittleEndian(k, 8);
    BlockMeans(pcm, k);
  }

  lemma NumbersFit(e: Session, k: nat)
    ensures SeqAt(e, k) == (e.first + k) % 65536 < 65536
    ensures StampAt(e, k) == (e.origin + 352 * k) % 0x1_0000_0000 < 0x1_0000_0000
  {}

  lemma BlockMeans(pcm: Bytes, k: nat)
    requires 1408 * k <= |pcm|
    ensures forall i | 0 <= i < 1408 :: Block(pcm, k)[i] == if 1408 * k + i < |pcm| then pcm[1408 * k + i] else 0
  {
    forall i: nat | i < 1408
      ensures Block(pcm, k)[i] == if 1408 * k + i < |pcm| then pcm[1408 * k + i] else 0
    {
      var end := Min(PCM_BYTES * (k + 1), |pcm|);
      var n := end - PCM_BYTES * k;
      if i >= n { AllZero(PCM_BYTES - n, i - n); }
    }
  }

  lemma {:induction false} AllZero(n: nat, i: nat)
    requires i < n
    ensures Zeros(n)[i] == 0
  {
    if i > 0 { AllZero(n - 1, i - 1); }
  }

  /******* Padding *******/

  function Joined(pcm: Bytes, n: nat): Bytes
    requires n == 0 || PCM_BYTES * (n - 1) <= |pcm|
  {
    if n == 0 then [] else Joined(pcm, n - 1) + Block(pcm, n - 1)
  }

  lemma {:induction false} JoinedIsPrefix(pcm: Bytes, n: nat)
    requires PCM_BYTES * n <= |pcm|
    ensures Joined(pcm, n) == pcm[..PCM_BYTES * n]
  {
    if n > 0 {
      JoinedIsPrefix(pcm, n - 1);
      assert Zeros(0) == [];
      assert Block(pcm, n - 1) == pcm[PCM_BYTES * (n - 1)..PCM_BYTES * n];
    }
  }

  lemma CountIs(pcm: Bytes)
    ensures PCM_BYTES * Count(pcm) - PCM_BYTES < |pcm| <= PCM_BYTES * Count(pcm)
  {}

  lemma LastBlock(pcm: Bytes, n: nat)
    requires n > 0 && PCM_BYTES * (n - 1) <= |pcm| <= PCM_BYTES * n
    ensures Block(pcm, n - 1) == pcm[PCM_BYTES * (n - 1)..] + Zeros(PCM_BYTES * n - |pcm|)
  {}

  lemma TwoParts(pcm: Bytes, from: nat, zeros: Bytes)
    requires from <= |pcm|
    ensures pcm[..from] + (pcm[from..] + zeros) == pcm + zeros
  {}

  /** Zero bytes behind the input. */
  function Padding(pcm: Bytes): (n: nat)
    ensures n < PCM_BYTES
  {
    PCM_BYTES * Count(pcm) - |pcm|
  }

  lemma LastJoined(pcm: Bytes, n: nat)
    requires n > 0 && PCM_BYTES * (n - 1) <= |pcm| <= PCM_BYTES * n
    ensures Joined(pcm, n) == pcm + Zeros(PCM_BYTES * n - |pcm|)
  {
    hide Block, Zeros, Joined;
    JoinedIsPrefix(pcm, n - 1);
    JoinedOneMore(pcm, n);
    LastBlock(pcm, n);
    TwoParts(pcm, PCM_BYTES * (n - 1), Zeros(PCM_BYTES * n - |pcm|));
  }

  lemma CountFits(pcm: Bytes)
    ensures Count(pcm) == 0 || PCM_BYTES * (Count(pcm) - 1) <= |pcm|
    ensures Count(pcm) == 0 ==> pcm == [] && Padding(pcm) == 0
    ensures Count(pcm) > 0 ==>
            PCM_BYTES * (Count(pcm) - 1) <= |pcm| <= PCM_BYTES * Count(pcm)
            && PCM_BYTES * Count(pcm) - |pcm| == Padding(pcm)
  {}

  /** The packets' PCM joined is the input, with zeros only behind it, fewer than a packet holds. */
  lemma {:induction false} PcmIsKept(pcm: Bytes)
    ensures Count(pcm) == 0 || PCM_BYTES * (Count(pcm) - 1) <= |pcm|
    ensures Joined(pcm, Count(pcm)) == pcm + Zeros(Padding(pcm))
  {
    hide *;
    CountFits(pcm);
    if Count(pcm) > 0 {
      LastJoined(pcm, Count(pcm));
    } else {
      NothingJoined(pcm);
      assert pcm + [] == pcm;
    }
  }

  lemma JoinedOneMore(pcm: Bytes, n: nat)
    requires n > 0 && PCM_BYTES * (n - 1) <= |pcm|
    ensures Joined(pcm, n) == Joined(pcm, n - 1) + Block(pcm, n - 1)
  {
    hide Block;
  }

  lemma NothingJoined(pcm: Bytes)
    ensures Zeros(0) == [] && Joined(pcm, 0) == []
  {}

  /******* The retransmission window *******/

  predicate Kept(k: nat, i: nat) { i < k <= i + WINDOW }

  /** After k packets exactly the last 512 are there, under their sequence numbers, as first sent. */
  ghost predicate Window(e: Session, pcm: Bytes, packets: map<nat, Bytes>, k: nat) {
    && (k > 0 ==> PCM_BYTES * (k - 1) <= |pcm|)
    && (forall i: nat | Kept(k, i) :: SeqAt(e, i) in packets && packets[SeqAt(e, i)] == PacketAt(e, pcm, i))
    && (forall q | q in packets :: exists i: nat :: Kept(k, i) && SeqAt(e, i) == q)
  }

  lemma SameNumber(e: Session, i: nat, j: nat)
    requires SeqAt(e, i) == SeqAt(e, j) && i <= j < i + 65536
    ensures i == j
  {}

  /** The number 512 back, modulo 2^16. */
  function Back(sequence: nat): nat { (sequence + 65536 - WINDOW) % 65536 }

  lemma BackIs(e: Session, k: nat)
    ensures k >= WINDOW ==> Back(SeqAt(e, k)) == SeqAt(e, k - WINDOW)
    ensures forall i: nat | i <= k < i + WINDOW :: SeqAt(e, i) != Back(SeqAt(e, k))
  {}

  lemma WindowMoves(e: Session, pcm: Bytes, packets: map<nat, Bytes>, k: nat)
    requires Window(e, pcm, packets, k) && PCM_BYTES * k <= |pcm|
    ensures Window(e, pcm, packets[SeqAt(e, k) := PacketAt(e, pcm, k)] - {Back(SeqAt(e, k))}, k + 1)
  {
    hide PacketAt, SeqAt, Back;
    BackIs(e, k);
    var after := packets[SeqAt(e, k) := PacketAt(e, pcm, k)] - {Back(SeqAt(e, k))};
    forall i: nat | Kept(k + 1, i) ensures SeqAt(e, i) in after && after[SeqAt(e, i)] == PacketAt(e, pcm, i) {
      if i < k {
        assert Kept(k, i);
        if SeqAt(e, i) == SeqAt(e, k) { SameNumber(e, i, k); }
      }
    }
    forall q | q in after ensures exists i: nat :: Kept(k + 1, i) && SeqAt(e, i) == q {
      if q == SeqAt(e, k) {
        assert Kept(k + 1, k);
      } else {
        var i: nat :| Kept(k, i) && SeqAt(e, i) == q;
        assert i + WINDOW == k ==> k >= WINDOW && q == Back(SeqAt(e, k));
        assert Kept(k + 1, i);
      }
    }
  }

  /** The j-th number a retransmission request asks for. */
  function Asked(start: nat, j: nat): nat { (start + j) % 65536 }

  /** What a retransmission request gets: of the numbers asked for, the packets kept. */
  function Requested(packets: map<nat, Bytes>, start: nat, n: nat): seq<Bytes> {
    if n == 0 then []
    else
      var number := Asked(start, n - 1);
      Requested(packets, start, n - 1) + if number in packets then [packets[number]] else []
  }

  /** Number j of those asked for is that of the i-th packet, one of the last 512 of the k sent. */
  predicate AsksFor(e: Session, k: nat, start: nat, n: nat, i: nat, j: nat) {
    i < k <= i + 512 && j < n && (e.first + i) % 0x1_0000 == (start + j) % 0x1_0000
  }

  /** Whatever is asked for and still kept is resent as first sent, and nothing else is. */
  lemma {:induction false} ResentAsSent(e: Session, pcm: Bytes, packets: map<nat, Bytes>, k: nat, start: nat, n: nat,
          packet: Bytes)
    requires Window(e, pcm, packets, k)
    ensures packet in Requested(packets, start, n) <==>
            exists i: nat, j: nat :: AsksFor(e, k, start, n, i, j) && PacketAt(e, pcm, i) == packet
  {
    hide PacketAt, SeqAt, Asked;
    if n > 0 {
      ResentAsSent(e, pcm, packets, k, start, n - 1, packet);
      var number, before := Asked(start, n - 1), Requested(packets, start, n - 1);
      if packet in Requested(packets, start, n) && packet !in before {
        assert number in packets && packets[number] == packet;
        var i: nat :| Kept(k, i) && SeqAt(e, i) == number;
        AskedMeans(e, k, start, n, i, n - 1);
        assert PacketAt(e, pcm, i) == packet;
      }
      if packet in before {
        var i: nat, j: nat :| AsksFor(e, k, start, n - 1, i, j) && PacketAt(e, pcm, i) == packet;
        assert AsksFor(e, k, start, n, i, j);
      }
      if i: nat, j: nat :| AsksFor(e, k, start, n, i, j) && PacketAt(e, pcm, i) == packet {
        AskedMeans(e, k, start, n, i, j);
        if j == n - 1 {
          assert Requested(packets, start, n)[|before|] == packet;
        } else {
          assert AsksFor(e, k, start, n - 1, i, j);
        }
      }
    }
  }

  lemma AskedMeans(e: Session, k: nat, start: nat, n: nat, i: nat, j: nat)
    ensures AsksFor(e, k, start, n, i, j) <==> Kept(k, i) && j < n && SeqAt(e, i) == Asked(start, j)
  {}

  /******* The stream *******/

  /** Everything about the k packets sent so far, and the counters for the next. */
  ghost predicate Sent(e: Session, pcm: Bytes, k: nat, sequence: nat, stamp: nat, counter: nat, sent: seq<Bytes>,
          packets: map<nat, Bytes>) {
    && sequence == SeqAt(e, k) && stamp == StampAt(e, k) && counter == k
    && |sent| == k && (k > 0 ==> PCM_BYTES * (k - 1) <= |pcm|)
    && (forall i: nat | i < k :: sent[i] == PacketAt(e, pcm, i))
    && Window(e, pcm, packets, k)
  }

  lemma StartsAt(e: Session, pcm: Bytes)
    requires Proper(e)
    ensures Sent(e, pcm, 0, e.first, e.origin, 0, [], map[])
  {}

  lemma MovesOn(e: Session, pcm: Bytes, k: nat, sequence: nat, stamp: nat, counter: nat, sent: seq<Bytes>,
          packets: map<nat, Bytes>)
    requires Sent(e, pcm, k, sequence, stamp, counter, sent, packets) && PCM_BYTES * k <= |pcm|
    ensures counter == k
    ensures var packet := Packet(e, sequence, stamp, counter, Block(pcm, k));
            Sent(e, pcm, k + 1, (sequence + 1) % 65536, (stamp + FRAMES) % 0x1_0000_0000, counter + 1, sent + [packet],
                 packets[sequence := packet] - {Back(sequence)})
  {
    hide SeqAt, StampAt, Packet, PacketAt, Block, Window, Back;
    PacketIs(e, pcm, k);
    WindowMoves(e, pcm, packets, k);
    NextCounters(e, k);
  }

  lemma BlockIs(pcm: Bytes, k: nat, n: nat)
    requires PCM_BYTES * k <= |pcm| && n == Min(PCM_BYTES, |pcm| - PCM_BYTES * k)
    ensures pcm[PCM_BYTES * k..][..n] + Zeros(PCM_BYTES - n) == Block(pcm, k)
    ensures pcm[PCM_BYTES * k..][n..] == pcm[PCM_BYTES * k + n..]
  {
    assert pcm[PCM_BYTES * k..][..n] == pcm[PCM_BYTES * k..PCM_BYTES * k + n];
  }

  /** Whether the block read is the last, and whether it is aligned. */
  lemma BlocksLeft(pcm: Bytes, k: nat, n: nat)
    requires PCM_BYTES * k <= |pcm| && n == Min(PCM_BYTES, |pcm| - PCM_BYTES * k)
    ensures n == 0 ==> Count(pcm) == k && |pcm| == 4 * (FRAMES * k)
    ensures n > 0 ==> k < Count(pcm) && |pcm| > 0
    ensures 0 < n < PCM_BYTES ==> Count(pcm) == k + 1 && |pcm| == 4 * (FRAMES * k) + n
    ensures n % 4 != 0 ==> |pcm| % 4 != 0
    ensures n < PCM_BYTES && n % 4 == 0 ==> |pcm| % 4 == 0
  {}

  lemma PacketIs(e: Session, pcm: Bytes, k: nat)
    requires PCM_BYTES * k <= |pcm|
    ensures Packet(e, SeqAt(e, k), StampAt(e, k), k, Block(pcm, k)) == PacketAt(e, pcm, k)
  {}

  lemma NextCounters(e: Session, k: nat)
    ensures (SeqAt(e, k) + 1) % 65536 == SeqAt(e, k + 1)
    ensures (StampAt(e, k) + FRAMES) % 0x1_0000_0000 == StampAt(e, k + 1)
  {}

  /** Nanoseconds a packet may be late. */
  const UNDERRUN := 300_000_000

  /** The k-th packet's time, by int64, lies too far back. */
  predicate Late(now: nat -> int, k: nat) { now(k) - StreamTime.At(FRAMES * k) > UNDERRUN }

  lemma LateMeans(now: nat -> int)
    ensures forall k: nat :: Late(now, k) <==> now(k) - StreamTime.At(352 * k) > 300_000_000
  {
    hide StreamTime.At;
  }

  lemma CountMeans(pcm: Bytes)
    ensures Count(pcm) == (|pcm| + 1407) / 1408
  {}

  lemma SentMeans(e: Session, pcm: Bytes, k: nat, sequence: nat, stamp: nat, counter: nat, sent: seq<Bytes>,
          packets: map<nat, Bytes>)
    requires Sent(e, pcm, k, sequence, stamp, counter, sent, packets)
    ensures |sent| == k && (k > 0 ==> PCM_BYTES * (k - 1) <= |pcm|)
    ensures forall i: nat | i < k :: sent[i] == PacketAt(e, pcm, i)
  {
    hide PacketAt;
  }

  lemma LateIs(now: nat -> int, k: nat)
    ensures Late(now, k) <==> now(k) - StreamTime.At(FRAMES * k) > UNDERRUN
  {}

  /** A stream so long that its times wrap cannot be sent: whatever the clock, some packet is late. */
  lemma LongStreamIsLate(pcm: Bytes, now: nat -> int)
    requires FRAMES * Count(pcm) > StreamTime.LAST_FRAME + FRAMES && forall k: nat :: now(k) >= 0
    ensures exists k: nat :: k < Count(pcm) && Late(now, k)
  {
    hide StreamTime.At, Count;
    var k := StreamTime.LAST_FRAME / FRAMES + 1;
    assert StreamTime.LAST_FRAME < FRAMES * k <= StreamTime.LAST_FRAME + FRAMES;
    StreamTime.WrappedIsPast(FRAMES * k);
    assert Late(now, k);
  }

  class Stream {
    const session: Session
    var sequence: nat
    var stamp: nat
    var counter: nat
    var samples: nat
    var packets: map<nat, Bytes>
    ghost var sent: seq<Bytes>

    /** A session that has sent nothing. */
    constructor (e: Session)
      requires Proper(e)
      ensures session == e && sequence == e.first && stamp == e.origin && counter == 0 && samples == 0
              && packets == map[] && sent == []
    {
      session, sequence, stamp, counter, samples, packets, sent := e, e.first, e.origin, 0, 0, map[], [];
    }

    ghost predicate At(pcm: Bytes, k: nat)
      reads this
    {
      Sent(session, pcm, k, sequence, stamp, counter, sent, packets)
    }

    /**
     Stream: the k-th turn may find the session or its clock gone (`ends(k)`), itself too late by
     the clock (`now(k)`, since the first packet), or the network refusing its packet
     (`fails(k)`); `ends` counts one turn more, in which the rest is played out. On success
     everything was sent; it fails only there, or on empty or unaligned input.
     */
    method Send(pcm: Bytes, ends: nat -> bool, now: nat -> int, fails: nat -> bool) returns (ok: bool)
      requires Proper(session) && sequence == session.first && stamp == session.origin
      requires counter == 0 && samples == 0 && packets == map[] && sent == []
      modifies this
      ensures ok ==> At(pcm, Count(pcm)) && 4 * samples == |pcm| && |pcm| > 0
      ensures ok ==>
              |sent| == (|pcm| + 1407) / 1408 && forall i: nat | i < |sent| :: sent[i] == PacketAt(session, pcm, i)
      ensures ok <==> |pcm| > 0 && |pcm| % 4 == 0 && !ends((|pcm| + 1407) / 1408)
                      && forall k: nat | k < (|pcm| + 1407) / 1408 ::
                           !ends(k) && now(k) - StreamTime.At(352 * k) <= 300_000_000 && !fails(k)
    {
      CountMeans(pcm);
      hide Sent, Block, Count, Zeros, Late, StreamTime.At, PacketAt;
      LateMeans(now);
      StartsAt(session, pcm);
      var rest := pcm;
      ghost var k: nat := 0;
      assert pcm[0..] == pcm;
      while true
        invariant PCM_BYTES * k <= |pcm| && rest == pcm[PCM_BYTES * k..]
        invariant At(pcm, k) && counter == k && samples == FRAMES * k
        invariant forall i: nat | i < k :: !ends(i) && !Late(now, i) && !fails(i)
        decreases |rest|
      {
        var n := Min(PCM_BYTES, |rest|);
        BlocksLeft(pcm, k, n);
        if ends(counter) { return false; }
        if n == 0 { break; }
        if n % 4 != 0 { return false; }
        LateIs(now, k);
        if now(counter) - StreamTime.At(samples) > UNDERRUN { return false; }
        BlockIs(pcm, k, n);
        var fine := SendBlock(rest[..n] + Zeros(PCM_BYTES - n), fails(counter), pcm, k);
        if !fine { return false; }
        samples := samples + n / 4;
        rest := rest[n..];
        k := k + 1;
        if n < PCM_BYTES { break; }
      }
      SentMeans(session, pcm, k, sequence, stamp, counter, sent, packets);
      ok := counter > 0 && !ends(counter);
    }

    /** One packet: built, kept for retransmission, sent; only then do the counters move on. */
    method SendBlock(block: Bytes, refused: bool, ghost pcm: Bytes, ghost k: nat) returns (ok: bool)
      requires At(pcm, k) && PCM_BYTES * k <= |pcm| && block == Block(pcm, k)
      modifies this`sequence, this`stamp, this`counter, this`packets, this`sent
      ensures ok == !refused
      ensures ok ==> At(pcm, k + 1) && counter == k + 1
    {
      hide Sent, Block, Packet, Back;
      MovesOn(session, pcm, k, sequence, stamp, counter, sent, packets);
      var packet := Packet(session, sequence, stamp, counter, block);
      packets := packets[sequence := packet] - {Back(sequence)};
      if refused { return false; }
      sequence, stamp, counter := (sequence + 1) % 65536, (stamp + FRAMES) % 0x1_0000_0000, counter + 1;
      sent := sent + [packet];
      ok := true;
    }

    /** retransmits: the packets asked for that are still kept. */
    method Resend(start: nat, asked: nat) returns (out: seq<Bytes>)
      requires start < 65536
      ensures out == Requested(packets, start, if asked < 512 then asked else 512)
    {
      out := [];
      for i := 0 to Min(asked, WINDOW)
        invariant out == Requested(packets, start, i)
      {
        var number := Asked(start, i);
        if number in packets { out := out + [packets[number]]; }
      }
    }
  }
}
