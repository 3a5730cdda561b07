/**
 Ogg packets (internal/app/native_tags.go), laced into segments, spread over pages and
 interleaved with other streams, after sections 5 and 6 of RFC 3533; and the search for the
 first comment packet among them.
 */
module OggPackets {
  import opened Wrappers
  import opened ByteOrder

  type Bytes = seq<Byte>

  const FULL: nat := 255

  /******* Lacing *******/

  /** A packet as segments: full ones, then one that is not, which may be empty. */
  function Lace(packet: Bytes): seq<Bytes> {
    if |packet| < FULL then [packet] else [packet[..FULL]] + Lace(packet[FULL..])
  }

  /** All segments but the last are full, and the last is not: a packet of n bytes has n / 255 + 1 segments. */
  lemma {:induction false} LaceMeans(packet: Bytes)
    ensures |Lace(packet)| == |packet| / 255 + 1
    ensures forall i | 0 <= i < |Lace(packet)| ::
            |Lace(packet)[i]| == if i < |packet| / 255 then 255 else |packet| % 255
    ensures Flatten(Lace(packet)) == packet
    decreases |packet|
  {
    if |packet| < FULL {
      assert [packet][1..] == [] && packet + [] == packet;
    } else {
      var rest := packet[FULL..];
      LaceMeans(rest);
      assert Lace(packet) == [packet[..FULL]] + Lace(rest) && Lace(packet)[1..] == Lace(rest);
      assert |packet| / 255 == |rest| / 255 + 1 && |packet| % 255 == |rest| % 255;
      assert packet == packet[..FULL] + rest;
    }
  }

  function LaceAll(packets: seq<Bytes>): seq<Bytes> {
    if packets == [] then [] else LaceAll(packets[..|packets| - 1]) + Lace(packets[|packets| - 1])
  }

  /** Packets completed by some segments, and the bytes of one not yet complete. */
  datatype Unlaced = Unlaced(packets: seq<Bytes>, partial: Bytes)

  function AddTo(u: Unlaced, segment: Bytes): Unlaced {
    if |segment| == FULL then u.(partial := u.partial + segment)
    else Unlaced(u.packets + [u.partial + segment], [])
  }

  function Unlace(segments: seq<Bytes>): Unlaced {
    if segments == [] then Unlaced([], []) else AddTo(Unlace(segments[..|segments| - 1]), segments[|segments| - 1])
  }

  lemma {:induction false} UnlaceLaced(segments: seq<Bytes>, packet: Bytes)
    ensures Unlace(segments + Lace(packet)) ==
            Unlaced(Unlace(segments).packets + [Unlace(segments).partial + packet], [])
    decreases |packet|
  {
    var u := Unlace(segments);
    if |packet| < FULL {
      assert (segments + [packet])[..|segments|] == segments;
    } else {
      var first, rest := packet[..FULL], packet[FULL..];
      var more := segments + [first];
      assert more[..|segments|] == segments;
      assert segments + ([first] + Lace(rest)) == more + Lace(rest);
      UnlaceLaced(more, rest);
      assert u.partial + first + rest == u.partial + packet;
    }
  }

  /** Unlacing undoes lacing: the packets come back whole and in order, nothing is left over. */
  lemma {:induction false} UnlaceLaceAll(packets: seq<Bytes>)
    ensures Unlace(LaceAll(packets)) == Unlaced(packets, [])
  {
    if packets != [] {
      var front, last := packets[..|packets| - 1], packets[|packets| - 1];
      assert LaceAll(packets) == LaceAll(front) + Lace(last);
      assert [] + last == last && front + [last] == packets;
      hide Lace, LaceAll, Unlace;
      UnlaceLaceAll(front);
      UnlaceLaced(LaceAll(front), last);
    }
  }

  /******* Pages *******/

  /** `flags` and `check`: the header bytes around the serial number that are not looked at. */
  datatype Page = Page(serial: nat, flags: Bytes, check: Bytes, segments: seq<Bytes>)

  ghost predicate ProperPage(p: Page) {
    && p.serial < 0x1_0000_0000 && |p.flags| == 9 && |p.check| == 8 && |p.segments| <= 255
    && Short(p.segments)
  }

  /** No segment is longer than a lacing value can say. */
  predicate Short(segments: seq<Bytes>) { segments == [] || (|segments[0]| <= FULL && Short(segments[1..])) }

  /** The segments of one stream, over all pages. */
  function Segments(pages: seq<Page>, serial: nat): seq<Bytes> {
    if pages == [] then []
    else
      var last := pages[|pages| - 1];
      Segments(pages[..|pages| - 1], serial) + if last.serial == serial then last.segments else []
  }

  type Completed = seq<(nat, Bytes)>

  /** What the reader has: unfinished packets by serial, and the packets completed so far. */
  datatype State = State(packets: map<nat, Bytes>, completed: Completed)

  function PartialOf(packets: map<nat, Bytes>, serial: nat): Bytes { if serial in packets then packets[serial] else [] }

  function AddSegment(s: State, serial: nat, segment: Bytes): State {
    var packet := PartialOf(s.packets, serial) + segment;
    if |segment| == FULL then s.(packets := s.packets[serial := packet])
    else State(s.packets - {serial}, s.completed + [(serial, packet)])
  }

  function AddSegments(s: State, serial: nat, segments: seq<Bytes>): State {
    if segments == [] then s
    else AddSegment(AddSegments(s, serial, segments[..|segments| - 1]), serial, segments[|segments| - 1])
  }

  function AddPages(pages: seq<Page>): State {
    if pages == [] then State(map[], [])
    else
      var last := pages[|pages| - 1];
      AddSegments(AddPages(pages[..|pages| - 1]), last.serial, last.segments)
  }

  /** The completed packets of one stream. */
  function Of(completed: Completed, serial: nat): seq<Bytes> {
    if completed == [] then []
    else
      var last := completed[|completed| - 1];
      Of(completed[..|completed| - 1], serial) + if last.0 == serial then [last.1] else []
  }

  function ViewOf(s: State, serial: nat): Unlaced { Unlaced(Of(s.completed, serial), PartialOf(s.packets, serial)) }

  lemma SegmentKeepsStreams(s: State, serial: nat, segment: Bytes, other: nat)
    ensures ViewOf(AddSegment(s, serial, segment), other) ==
            if other == serial then AddTo(ViewOf(s, other), segment) else ViewOf(s, other)
  {
    var packet := PartialOf(s.packets, serial) + segment;
    assert (s.completed + [(serial, packet)])[..|s.completed|] == s.completed;
  }

  lemma UnlaceOneMore(segments: seq<Bytes>, last: Bytes)
    ensures Unlace(segments + [last]) == AddTo(Unlace(segments), last)
  {
    assert (segments + [last])[..|segments|] == segments;
  }

  lemma {:induction false} SegmentsKeepStreams(s: State, serial: nat, segments: seq<Bytes>, before: seq<Bytes>,
          other: nat)
    requires ViewOf(s, other) == Unlace(before)
    ensures ViewOf(AddSegments(s, serial, segments), other) == Unlace(before + if other == serial then segments else [])
  {
    hide ViewOf, AddSegment, AddTo, Unlace;
    assert before + [] == before;
    if segments != [] {
      var front, last := segments[..|segments| - 1], segments[|segments| - 1];
      SegmentsKeepStreams(s, serial, front, before, other);
      SegmentKeepsStreams(AddSegments(s, serial, front), serial, last, other);
      if other == serial {
        UnlaceOneMore(before + front, last);
        assert (before + front) + [last] == before + segments;
      }
    }
  }

  /** Interleaving changes nothing for a stream: what is read of it is its own segments, unlaced. */
  lemma {:induction false} StreamsAreSeparate(pages: seq<Page>, serial: nat)
    ensures ViewOf(AddPages(pages), serial) == Unlace(Segments(pages, serial))
  {
    if pages != [] {
      var front, last := pages[..|pages| - 1], pages[|pages| - 1];
      StreamsAreSeparate(front, serial);
      SegmentsKeepStreams(AddPages(front), last.serial, last.segments, Segments(front, serial), serial);
    }
  }

  /**
   However packets are laced, paged and interleaved: for a stream that carries `packets`,
   exactly those packets are completed, in order.
   */
  lemma PacketsComeBack(pages: seq<Page>, serial: nat, packets: seq<Bytes>)
    requires Segments(pages, serial) == LaceAll(packets)
    ensures Of(AddPages(pages).completed, serial) == packets
  {
    StreamsAreSeparate(pages, serial);
    UnlaceLaceAll(packets);
  }

  /******* The comment packet *******/

  datatype Codec = Vorbis | Opus

  /** The five prefixes, as bytes. */
  const VORBIS_HEAD: Bytes := [1, 118, 111, 114, 98, 105, 115]
  const OPUS_HEAD: Bytes := [79, 112, 117, 115, 72, 101, 97, 100]
  const VORBIS_COMMENT: Bytes := [3, 118, 111, 114, 98, 105, 115]
  const OPUS_TAGS: Bytes := [79, 112, 117, 115, 84, 97, 103, 115]

  /** What a completed packet is to the reader. */
  datatype Kind = Head(codec: Codec) | Comments(body: Bytes) | Other

  function KindOf(codec: Option<Codec>, packet: Bytes): Kind {
    if VORBIS_HEAD <= packet then Head(Vorbis)
    else if OPUS_HEAD <= packet then Head(Opus)
    else if codec == Some(Vorbis) && VORBIS_COMMENT <= packet then Comments(packet[7..])
    else if codec == Some(Opus) && OPUS_TAGS <= packet then Comments(packet[8..])
    else Other
  }

  /** The four packets that are recognised, by their first bytes: "\x01vorbis", "OpusHead", "\x03vorbis", "OpusTags". */
  lemma KindMeans(codec: Option<Codec>, packet: Bytes)
    ensures var vorbisHead: Bytes, opusHead: Bytes :=
              [0x01, 0x76, 0x6F, 0x72, 0x62, 0x69, 0x73], [0x4F, 0x70, 0x75, 0x73, 0x48, 0x65, 0x61, 0x64];
            var vorbisTags: Bytes, opusTags: Bytes :=
              [0x03, 0x76, 0x6F, 0x72, 0x62, 0x69, 0x73], [0x4F, 0x70, 0x75, 0x73, 0x54, 0x61, 0x67, 0x73];
            && (KindOf(codec, packet) == Head(Vorbis) <==> vorbisHead <= packet)
            && (KindOf(codec, packet) == Head(Opus) <==> opusHead <= packet)
            && (KindOf(codec, packet).Comments? <==>
                (codec == Some(Vorbis) && vorbisTags <= packet) || (codec == Some(Opus) && opusTags <= packet))
            && (codec == Some(Vorbis) && vorbisTags <= packet ==> KindOf(codec, packet) == Comments(packet[7..]))
            && (codec == Some(Opus) && opusTags <= packet ==> KindOf(codec, packet) == Comments(packet[8..]))
  {
    if |packet| > 4 && VORBIS_HEAD <= packet { assert packet[0] == VORBIS_HEAD[0]; }
    if |packet| > 4 && OPUS_HEAD <= packet { assert packet[0] == OPUS_HEAD[0] && packet[4] == OPUS_HEAD[4]; }
    if |packet| > 4 && VORBIS_COMMENT <= packet { assert packet[0] == VORBIS_COMMENT[0]; }
    if |packet| > 4 && OPUS_TAGS <= packet { assert packet[0] == OPUS_TAGS[0] && packet[4] == OPUS_TAGS[4]; }
  }

  /** The codec a stream has announced by its packets. */
  function CodecOf(packets: seq<Bytes>): Option<Codec> {
    if packets == [] then None
    else
      var before := CodecOf(packets[..|packets| - 1]);
      match KindOf(before, packets[|packets| - 1]) { case Head(c) => Some(c) case _ => before }
  }

  /** The comments of one stream: its first comment packet. */
  function CommentsOf(packets: seq<Bytes>): Option<Bytes> {
    if packets == [] then None
    else
      var front := packets[..|packets| - 1];
      if CommentsOf(front).Some? then CommentsOf(front)
      else match KindOf(CodecOf(front), packets[|packets| - 1]) { case Comments(body) => Some(body) case _ => None }
  }

  /** A stream's comments are in its second packet, when that is the comment packet of what the first announces. */
  lemma SecondPacketHasThem(packets: seq<Bytes>, opus: bool)
    requires |packets| >= 2
    requires (if opus then [0x4F, 0x70, 0x75, 0x73, 0x48, 0x65, 0x61, 0x64]
              else [0x01, 0x76, 0x6F, 0x72, 0x62, 0x69, 0x73]) <= packets[0]
    requires (if opus then [0x4F, 0x70, 0x75, 0x73, 0x54, 0x61, 0x67, 0x73]
              else [0x03, 0x76, 0x6F, 0x72, 0x62, 0x69, 0x73]) <= packets[1]
    ensures CommentsOf(packets) == Some(packets[1][if opus then 8 else 7..])
  {
    hide KindOf;
    KindMeans(None, packets[0]);
    KindMeans(Some(if opus then Opus else Vorbis), packets[1]);
    var first, two := packets[..1], packets[..2];
    assert first[..0] == [] && two[..1] == first;
    assert CodecOf(first) == Some(if opus then Opus else Vorbis);
    assert CommentsOf(first).None?;
    CommentsStay(packets, 2);
  }

  lemma {:induction false} CommentsStay(packets: seq<Bytes>, n: nat)
    requires n <= |packets| && CommentsOf(packets[..n]).Some?
    ensures CommentsOf(packets) == CommentsOf(packets[..n])
  {
    if n < |packets| {
      assert packets[..|packets| - 1][..n] == packets[..n];
      CommentsStay(packets[..|packets| - 1], n);
    } else {
      assert packets[..n] == packets;
    }
  }

  /** The comments the reader returns: those of the first comment packet completed, of any stream. */
  function Found(completed: Completed): Option<(nat, Bytes)> {
    if completed == [] then None
    else
      var front, last := completed[..|completed| - 1], completed[|completed| - 1];
      if Found(front).Some? then Found(front)
      else match KindOf(CodecOf(Of(front, last.0)),
          last.1) { case Comments(body) => Some((last.0, body)) case _ => None }
  }

  /** The reader finds comments exactly when some stream has them, and they are that stream's own. */
  lemma {:induction false} FoundIsOfOneStream(completed: Completed, serial: nat)
    ensures Found(completed).None? ==> CommentsOf(Of(completed, serial)).None?
    ensures Found(completed).Some? ==>
              CommentsOf(Of(completed, Found(completed).value.0)) == Some(Found(completed).value.1)
  {
    if completed != [] {
      var front, last := completed[..|completed| - 1], completed[|completed| - 1];
      FoundIsOfOneStream(front, serial);
      FoundIsOfOneStream(front, last.0);
      OneMoreOf(completed, serial);
      OneMoreOf(completed, last.0);
      if Found(front).Some? { OneMoreOf(completed, Found(front).value.0); }
      hide Of, KindOf, CodecOf;
    }
  }

  lemma OneMoreOf(completed: Completed, serial: nat)
    requires completed != []
    ensures var front, last := completed[..|completed| - 1], completed[|completed| - 1];
            && (last.0 != serial ==> Of(completed, serial) == Of(front, serial))
            && (last.0 == serial ==> Of(completed, serial) == Of(front, serial) + [last.1] &&
                                     Of(completed, serial)[..|Of(completed, serial)| - 1] == Of(front, serial))
  {}

  /**
   The comments read do not depend on paging: they are the comments of the packets of a
   stream, and there are none only if no stream has any.
   */
  lemma CommentsAreTheStreams(pages: seq<Page>, packets: map<nat, seq<Bytes>>, serial: nat)
    requires forall s :: Segments(pages, s) == if s in packets then LaceAll(packets[s]) else []
    ensures var r := Found(AddPages(pages).completed);
            && (r.Some? ==> r.value.0 in packets && CommentsOf(packets[r.value.0]) == Some(r.value.1))
            && (r.None? && serial in packets ==> CommentsOf(packets[serial]).None?)
  {
    var completed := AddPages(pages).completed;
    FoundIsOfOneStream(completed, serial);
    hide KindOf, CodecOf, AddPages, Segments, LaceAll;
    if serial in packets { PacketsComeBack(pages, serial, packets[serial]); }
    var r := Found(completed);
    if r.Some? {
      var s := r.value.0;
      if s in packets { PacketsComeBack(pages, s, packets[s]); } else { NoPackets(pages, s); }
    }
  }

  lemma NoPackets(pages: seq<Page>, serial: nat)
    requires Segments(pages, serial) == []
    ensures Of(AddPages(pages).completed, serial) == []
  {
    StreamsAreSeparate(pages, serial);
  }
}
