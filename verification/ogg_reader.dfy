/** Reading Ogg pages from bytes up to the first comment packet (internal/app/native_tags.go). */
module OggReader {
  import opened Wrappers
  import opened ByteOrder
  import opened OggPackets

  /** The comments of a stream, or none at the end of the file; or a malformed or oversized file. */
  datatype Outcome = Tags(found: Option<(nat, Bytes)>) | Invalid

  datatype Turn = Go(state: State, rest: Bytes, consumed: nat) | Stop(outcome: Outcome)

  const CAPTURE: Bytes := [79, 103, 103, 83, 0]

  const HEADER: nat := 27

  /******* What the reader does *******/

  /** The segments of one page; the packet that a short one ends may be the comments. */
  function ReadSegments(s: State, serial: nat, lace: Bytes, rest: Bytes, consumed: nat, limit: nat): (t: Turn)
    ensures t.Go? ==> |t.rest| <= |rest|
    decreases |lace|
  {
    if lace == [] then Go(s, rest, consumed)
    else if consumed + lace[0] > limit || |rest| < lace[0] then Stop(Invalid)
    else
      var segment, t := rest[..lace[0]], AddSegment(s, serial, rest[..lace[0]]);
      if Ends(s, serial, segment).Some? then Stop(Tags(Some((serial, Ends(s, serial, segment).value))))
      else ReadSegments(t, serial, lace[1..], rest[lace[0]..], consumed + lace[0], limit)
  }

  /** The comments, when this segment ends the comment packet of its stream. */
  function Ends(s: State, serial: nat, segment: Bytes): Option<Bytes> {
    if |segment| == FULL then None
    else
      match KindOf(CodecOf(Of(s.completed, serial)), PartialOf(s.packets, serial) + segment)
      case Comments(body) => Some(body)
      case _ => None
  }

  function ReadPages(s: State, input: Bytes, consumed: nat, limit: nat): Outcome
    decreases |input|
  {
    if consumed >= limit then Invalid
    else if input == [] then Tags(None)
    else if |input| < HEADER || input[..5] != CAPTURE || |input| < HEADER + input[26] then Invalid
    else
      var n := HEADER + input[26];
      match ReadSegments(s, LittleNumber(input[14..18]), input[HEADER..n], input[n..], consumed + n, limit)
      case Stop(outcome) => outcome
      case Go(t, rest, c) => ReadPages(t, rest, c, limit)
  }

  function AfterTurn(turn: Turn, limit: nat): Outcome {
    match turn
    case Stop(outcome) => outcome
    case Go(t, rest, c) => ReadPages(t, rest, c, limit)
  }

  /******* Pages as bytes *******/

  function Lengths(segments: seq<Bytes>): (r: Bytes)
    requires Short(segments)
    ensures |r| == |segments|
  {
    if segments == [] then [] else [|segments[0]|] + Lengths(segments[1..])
  }

  function PageHeader(p: Page): Bytes
    requires |p.segments| <= 255
  {
    CAPTURE + p.flags + LittleEndian(p.serial, 4) + p.check + [|p.segments|]
  }

  /** The header of a page and its lacing values. */
  function PageFront(p: Page): Bytes
    requires |p.segments| <= 255 && Short(p.segments)
  {
    PageHeader(p) + Lengths(p.segments)
  }

  ghost predicate AllProper(pages: seq<Page>) { pages == [] || (ProperPage(pages[0]) && AllProper(pages[1..])) }

  ghost function PagesBytes(pages: seq<Page>): Bytes
    requires AllProper(pages)
  {
    if pages == [] then [] else WithPage(pages[0], PagesBytes(pages[1..]))
  }

  lemma {:induction false} SegmentsFromFirst(s: State, serial: nat, segments: seq<Bytes>)
    requires segments != []
    ensures AddSegments(s, serial, segments) == AddSegments(AddSegment(s, serial, segments[0]), serial, segments[1..])
  {
    hide AddSegment;
    var front := segments[..|segments| - 1];
    if |segments| == 1 {
      assert front == [] && segments[1..] == [];
    } else {
      SegmentsFromFirst(s, serial, front);
      assert front[1..] == segments[1..][..|segments| - 2];
    }
  }

  lemma FoundAfter(s: State, serial: nat, segment: Bytes)
    ensures Found(AddSegment(s, serial, segment).completed) ==
            if Found(s.completed).Some? then Found(s.completed)
            else match Ends(s, serial, segment) { case Some(body) => Some((serial, body)) case None => None }
  {
    var packet := PartialOf(s.packets, serial) + segment;
    assert (s.completed + [(serial, packet)])[..|s.completed|] == s.completed;
    hide KindOf, CodecOf, Of;
  }

  lemma {:induction false} FoundStays(s: State, serial: nat, segments: seq<Bytes>)
    requires Found(s.completed).Some?
    ensures Found(AddSegments(s, serial, segments).completed) == Found(s.completed)
  {
    if segments != [] {
      var front := segments[..|segments| - 1];
      FoundStays(s, serial, front);
      FoundAfter(AddSegments(s, serial, front), serial, segments[|segments| - 1]);
      hide AddSegment, Found;
    }
  }

  lemma FirstSegmentIsRead(s: State, serial: nat, first: Bytes, lace: Bytes, more: Bytes, consumed: nat, limit: nat)
    requires |first| <= FULL && consumed + |first| <= limit
    ensures ReadSegments(s, serial, [|first|] + lace, first + more, consumed, limit) ==
            match Ends(s, serial, first) {
              case Some(body) => Stop(Tags(Some((serial, body))))
              case None => ReadSegments(AddSegment(s, serial, first), serial, lace, more, consumed + |first|, limit)
            }
  {
    assert ([|first|] + lace)[1..] == lace && (first + more)[..|first|] == first && (first + more)[|first|..] == more;
    hide AddSegment, Ends;
  }

  lemma FlattenOne(segments: seq<Bytes>)
    requires segments != []
    ensures Flatten(segments) == segments[0] + Flatten(segments[1..])
  {}

  lemma JoinFirst(segments: seq<Bytes>, tail: Bytes)
    requires segments != []
    ensures Flatten(segments) + tail == segments[0] + (Flatten(segments[1..]) + tail)
            && |Flatten(segments)| == |segments[0]| + |Flatten(segments[1..])|
  {
    hide Flatten;
    FlattenOne(segments);
    var rest := Flatten(segments[1..]);
    assert (segments[0] + rest) + tail == segments[0] + (rest + tail);
  }

  /** Where reading some segments leads: to the comments they hold, or past them. */
  function TurnAt(t: State, tail: Bytes, consumed: nat): Turn {
    if Found(t.completed).Some? then Stop(Tags(Found(t.completed))) else Go(t, tail, consumed)
  }

  lemma TurnIs(t: State, tail: Bytes, consumed: nat)
    ensures Found(t.completed).Some? ==> TurnAt(t, tail, consumed) == Stop(Tags(Found(t.completed)))
    ensures Found(t.completed).None? ==> TurnAt(t, tail, consumed) == Go(t, tail, consumed)
  {}

  lemma TurnLeads(t: State, tail: Bytes, consumed: nat, limit: nat)
    ensures AfterTurn(TurnAt(t, tail, consumed), limit) == Behind(t, tail, consumed, limit)
  {}

  /** The segments of a page, read back from its bytes. */
  lemma {:induction false} SegmentsAreRead(s: State, serial: nat, segments: seq<Bytes>, tail: Bytes, consumed: nat,
          limit: nat)
    requires Found(s.completed).None? && consumed + |Flatten(segments)| <= limit
    requires Short(segments)
    ensures var t := AddSegments(s, serial, segments);
            ReadSegments(s, serial, Lengths(segments), Flatten(segments) + tail, consumed, limit) ==
                TurnAt(t, tail, consumed + |Flatten(segments)|)
    decreases |segments|
  {
    hide *;
    if segments == [] {
      TurnIs(s, tail, consumed);
      EmptyPageIsRead(s, serial, tail, consumed, limit);
    } else {
      var first, others, t := segments[0], segments[1..], AddSegment(s, serial, segments[0]);
      LengthsFirst(segments);
      JoinFirst(segments, tail);
      FirstSegmentIsRead(s, serial, first, Lengths(others), Flatten(others) + tail, consumed, limit);
      SegmentsFromFirst(s, serial, segments);
      FoundAfter(s, serial, first);
      TurnIs(AddSegments(s, serial, segments), tail, consumed + |Flatten(segments)|);
      if Ends(s, serial, first).Some? {
        FoundStays(t, serial, others);
      } else {
        SegmentsAreRead(t, serial, others, tail, consumed + |first|, limit);
      }
    }
  }

  lemma EmptyPageIsRead(s: State, serial: nat, tail: Bytes, consumed: nat, limit: nat)
    ensures AddSegments(s, serial, []) == s && |Flatten([])| == 0
    ensures ReadSegments(s, serial, Lengths([]), Flatten([]) + tail, consumed, limit) == Go(s, tail, consumed)
  {
    assert [] + tail == tail;
  }

  lemma LengthsFirst(segments: seq<Bytes>)
    requires segments != [] && Short(segments)
    ensures |segments[0]| <= FULL && Short(segments[1..])
            && Lengths(segments) == [|segments[0]|] + Lengths(segments[1..])
  {}

  lemma HeaderIsRead(p: Page, rest: Bytes)
    requires ProperPage(p)
    ensures var b := PageFront(p) + rest; var n := HEADER + |p.segments|;
            && |b| >= n && b[..5] == CAPTURE && b[26] == |p.segments| && LittleNumber(b[14..18]) == p.serial
            && b[HEADER..n] == Lengths(p.segments) && b[n..] == rest
  {
    var h := PageHeader(p);
    var b := h + Lengths(p.segments) + rest;
    hide LittleEndian, Lengths, LittleNumber;
    assert |h| == HEADER && h[..5] == CAPTURE && h[14..18] == LittleEndian(p.serial, 4) && h[26] == |p.segments|;
    assert b[..5] == h[..5] && b[14..18] == h[14..18] && b[26] == h[26];
    Power256Of8();
    NumberOfLittleEndian(p.serial, 4);
  }

  /** Where a page has its capture pattern "OggS", its version, its serial number and its segment count. */
  lemma PageLayout(p: Page)
    requires ProperPage(p)
    ensures var h := PageHeader(p);
            && |h| == 27 && h[..5] == [0x4F, 0x67, 0x67, 0x53, 0] && h[5..14] == p.flags
            && LittleNumber(h[14..18]) == p.serial && h[18..26] == p.check && h[26] == |p.segments|
  {
    hide LittleEndian, LittleNumber;
    var h := PageHeader(p);
    assert h[14..18] == LittleEndian(p.serial, 4);
    Power256Of8();
    NumberOfLittleEndian(p.serial, 4);
  }

  lemma SplitPages(before: seq<Page>, pages: seq<Page>)
    requires AllProper(pages) && pages != []
    ensures before + pages == (before + [pages[0]]) + pages[1..]
    ensures ProperPage(pages[0]) && |pages[0].segments| <= 255 && Short(pages[0].segments) && AllProper(pages[1..])
  {
    hide *;
    ProperFirst(pages);
    assert pages == [pages[0]] + pages[1..];
  }

  lemma ProperFirst(pages: seq<Page>)
    requires AllProper(pages) && pages != []
    ensures ProperPage(pages[0]) && |pages[0].segments| <= 255 && Short(pages[0].segments) && AllProper(pages[1..])
  {}

  function PageSize(p: Page): nat { HEADER + |p.segments| + |Flatten(p.segments)| }

  /**
   Whatever the paging: if the pages hold a comment packet within the limit, its comments are
   returned, whatever follows.
   */
  lemma {:induction false} CommentsAreRead(before: seq<Page>, pages: seq<Page>, tail: Bytes, consumed: nat, limit: nat)
    requires AllProper(pages) && consumed + |PagesBytes(pages)| <= limit
    requires Found(AddPages(before).completed).None? && Found(AddPages(before + pages).completed).Some?
    ensures ReadPages(AddPages(before), PagesBytes(pages) + tail, consumed, limit) ==
            Tags(Found(AddPages(before + pages).completed))
    decreases |pages|
  {
    hide *;
    assert before + [] == before;
    SplitPages(before, pages);
    PagesBytesFirst(pages, tail);
    var p, others := pages[0], pages[1..];
    PageOutcome(before, p, PagesBytes(others) + tail, consumed, limit);
    AfterPage(AddPages(before + [p]), PagesBytes(others) + tail, consumed + PageSize(p), limit);
    if Found(AddPages(before + [p]).completed).None? {
      CommentsAreRead(before + [p], others, tail, consumed + PageSize(p), limit);
    } else {
      FoundInPages(before + [p], others);
    }
  }

  /** If they hold none, the end of the file is reached without. */
  lemma {:induction false} EndIsReached(before: seq<Page>, pages: seq<Page>, consumed: nat, limit: nat)
    requires AllProper(pages) && consumed + |PagesBytes(pages)| < limit
    requires Found(AddPages(before + pages).completed).None?
    ensures ReadPages(AddPages(before), PagesBytes(pages), consumed, limit) == Tags(None)
    decreases |pages|
  {
    hide *;
    if pages == [] {
      NothingMore(AddPages(before), consumed, limit);
    } else {
      SplitPages(before, pages);
      PagesBytesFirst(pages, []);
      var p, others := pages[0], pages[1..];
      assert PagesBytes(pages) + [] == PagesBytes(pages) && PagesBytes(others) + [] == PagesBytes(others);
      if Found(AddPages(before).completed).Some? { FoundInPages(before, pages); }
      if Found(AddPages(before + [p]).completed).Some? { FoundInPages(before + [p], others); }
      PageOutcome(before, p, PagesBytes(others), consumed, limit);
      AfterPage(AddPages(before + [p]), PagesBytes(others), consumed + PageSize(p), limit);
      EndIsReached(before + [p], others, consumed + PageSize(p), limit);
    }
  }

  /** Pages without comments that reach the limit are refused, whatever follows. */
  lemma {:induction false} LimitIsReached(before: seq<Page>, pages: seq<Page>, tail: Bytes, consumed: nat, limit: nat)
    requires AllProper(pages) && consumed + |PagesBytes(pages)| >= limit
    requires Found(AddPages(before + pages).completed).None?
    ensures ReadPages(AddPages(before), PagesBytes(pages) + tail, consumed, limit) == Invalid
    decreases |pages|
  {
    hide *;
    if consumed >= limit || pages == [] {
      AtLimit(AddPages(before), pages, tail, consumed, limit);
    } else {
      SplitPages(before, pages);
      PagesBytesFirst(pages, tail);
      var p, others := pages[0], pages[1..];
      if Found(AddPages(before).completed).Some? { FoundInPages(before, pages); }
      if Found(AddPages(before + [p]).completed).Some? { FoundInPages(before + [p], others); }
      if consumed + PageSize(p) <= limit {
        PageOutcome(before, p, PagesBytes(others) + tail, consumed, limit);
        AfterPage(AddPages(before + [p]), PagesBytes(others) + tail, consumed + PageSize(p), limit);
        LimitIsReached(before + [p], others, tail, consumed + PageSize(p), limit);
      } else {
        PageTooFar(before, p, PagesBytes(others) + tail, consumed, limit);
      }
    }
  }

  /** So is what is no page, or is cut short in its header or in its segments. */
  lemma NoPageIsRefused(s: State, input: Bytes, consumed: nat, limit: nat)
    requires input != [] && consumed < limit
    requires |input| < 27 || input[..5] != [0x4F, 0x67, 0x67, 0x53, 0] || |input| - 27 < input[26]
             || (input[26] > 0 && |input| - 27 - input[26] < input[27])
    ensures ReadPages(s, input, consumed, limit) == Invalid
  {
    hide LittleNumber, AddSegment, Ends;
    if |input| > 27 && |input| - 27 >= input[26] && input[26] > 0 {
      assert input[HEADER..HEADER + input[26]][0] == input[27];
    }
  }

  lemma AtLimit(s: State, pages: seq<Page>, tail: Bytes, consumed: nat, limit: nat)
    requires AllProper(pages) && consumed + |PagesBytes(pages)| >= limit && (consumed >= limit || pages == [])
    ensures ReadPages(s, PagesBytes(pages) + tail, consumed, limit) == Invalid
  {
    hide ProperPage;
  }

  /** A page that reaches past the limit, and holds no comments. */
  lemma PageTooFar(before: seq<Page>, p: Page, more: Bytes, consumed: nat, limit: nat)
    requires ProperPage(p) && |p.segments| <= 255 && Short(p.segments) && Found(AddPages(before).completed).None?
             && Found(AddPages(before + [p]).completed).None?
    requires consumed < limit < consumed + PageSize(p)
    ensures ReadPages(AddPages(before), WithPage(p, more), consumed, limit) == Invalid
  {
    hide *;
    var start := consumed + HEADER + |p.segments|;
    PageSizeIs(p);
    PageIsRead(AddPages(before), p, more, consumed, start, limit);
    OneMorePage(before, p);
    SegmentsTooFar(AddPages(before), p.serial, p.segments, more, start, limit);
    var turn := ReadSegments(AddPages(before), p.serial, Lengths(p.segments), Flatten(p.segments) + more, start, limit);
    TurnCases(turn, limit);
    if turn.Go? { PastLimit(turn.state, turn.rest, turn.consumed, limit); }
  }

  lemma PastLimit(s: State, rest: Bytes, consumed: nat, limit: nat)
    requires consumed >= limit
    ensures ReadPages(s, rest, consumed, limit) == Invalid
  {}

  lemma {:induction false} SegmentsTooFar(s: State, serial: nat, segments: seq<Bytes>, tail: Bytes, consumed: nat,
          limit: nat)
    requires Short(segments) && consumed + |Flatten(segments)| > limit
    requires Found(AddSegments(s, serial, segments).completed).None?
    ensures var turn := ReadSegments(s, serial, Lengths(segments), Flatten(segments) + tail, consumed, limit);
            turn == Stop(Invalid) || (turn.Go? && turn.consumed > limit)
    decreases |segments|
  {
    hide *;
    if segments == [] {
      EmptyPageIsRead(s, serial, tail, consumed, limit);
      NoBytes();
    } else {
      var first, others := segments[0], segments[1..];
      LengthsFirst(segments);
      JoinFirst(segments, tail);
      SegmentsFromFirst(s, serial, segments);
      if consumed + |first| > limit {
        FirstTooFar(s, serial, first, Lengths(others), Flatten(others) + tail, consumed, limit);
      } else {
        FirstSegmentIsRead(s, serial, first, Lengths(others), Flatten(others) + tail, consumed, limit);
        NotFoundYet(s, serial, first, others);
        SegmentsTooFar(AddSegment(s, serial, first), serial, others, tail, consumed + |first|, limit);
      }
    }
  }

  lemma NoBytes()
    ensures |Flatten([])| == 0
  {}

  lemma FirstTooFar(s: State, serial: nat, first: Bytes, lace: Bytes, more: Bytes, consumed: nat, limit: nat)
    requires |first| <= FULL && consumed + |first| > limit
    ensures ReadSegments(s, serial, [|first|] + lace, first + more, consumed, limit) == Stop(Invalid)
  {}

  lemma NotFoundYet(s: State, serial: nat, first: Bytes, others: seq<Bytes>)
    requires Found(AddSegments(AddSegment(s, serial, first), serial, others).completed).None?
    ensures Ends(s, serial, first).None?
  {
    hide *;
    FoundAfter(s, serial, first);
    if Ends(s, serial, first).Some? {
      SomeFound(s, serial, first);
      FoundStays(AddSegment(s, serial, first), serial, others);
    }
  }

  lemma SomeFound(s: State, serial: nat, first: Bytes)
    requires Ends(s, serial, first).Some?
    ensures Found(AddSegment(s, serial, first).completed).Some?
  {
    hide *;
    FoundAfter(s, serial, first);
  }

  lemma NothingMore(s: State, consumed: nat, limit: nat)
    requires consumed < limit
    ensures ReadPages(s, PagesBytes([]), consumed, limit) == Tags(None)
  {}

  lemma PageSegments(before: seq<Page>, p: Page, more: Bytes, consumed: nat, limit: nat)
    requires Short(p.segments) && Found(AddPages(before).completed).None? && consumed + |Flatten(p.segments)| <= limit
    ensures ReadSegments(AddPages(before), p.serial, Lengths(p.segments), Flatten(p.segments) + more, consumed, limit)
            == TurnAt(AddPages(before + [p]), more, consumed + |Flatten(p.segments)|)
  {
    hide *;
    OneMorePage(before, p);
    SegmentsAreRead(AddPages(before), p.serial, p.segments, more, consumed, limit);
  }

  /** One page: its comments are returned, or reading goes on behind it. */
  lemma PageOutcome(before: seq<Page>, p: Page, more: Bytes, consumed: nat, limit: nat)
    requires ProperPage(p) && |p.segments| <= 255 && Short(p.segments) && Found(AddPages(before).completed).None?
    requires consumed + PageSize(p) <= limit
    ensures ReadPages(AddPages(before), WithPage(p, more), consumed, limit) ==
            Behind(AddPages(before + [p]), more, consumed + PageSize(p), limit)
  {
    hide *;
    var s, t := AddPages(before), AddPages(before + [p]);
    var start, here := consumed + HEADER + |p.segments|, consumed + PageSize(p);
    PageSizeIs(p);
    PageSegments(before, p, more, start, limit);
    PageIsRead(s, p, more, consumed, start, limit);
    TurnLeads(t, more, here, limit);
    SameTurn(ReadSegments(s, p.serial, Lengths(p.segments), Flatten(p.segments) + more, start, limit),
        TurnAt(t, more, here), limit);
  }

  lemma PageSizeIs(p: Page)
    ensures HEADER > 0 && PageSize(p) == HEADER + |p.segments| + |Flatten(p.segments)|
  {}

  lemma SameTurn(a: Turn, b: Turn, limit: nat)
    requires a == b
    ensures AfterTurn(a, limit) == AfterTurn(b, limit)
  {}

  /** The page's bytes, with more behind them. */
  function WithPage(p: Page, more: Bytes): Bytes
    requires |p.segments| <= 255 && Short(p.segments)
  {
    PageFront(p) + (Flatten(p.segments) + more)
  }

  function Behind(t: State, more: Bytes, consumed: nat, limit: nat): Outcome {
    if Found(t.completed).Some? then Tags(Found(t.completed)) else ReadPages(t, more, consumed, limit)
  }

  lemma AfterPage(t: State, more: Bytes, consumed: nat, limit: nat)
    ensures Found(t.completed).Some? ==> Behind(t, more, consumed, limit) == Tags(Found(t.completed))
    ensures Found(t.completed).None? ==> Behind(t, more, consumed, limit) == ReadPages(t, more, consumed, limit)
  {}

  lemma OneMorePage(before: seq<Page>, p: Page)
    ensures AddPages(before + [p]) == AddSegments(AddPages(before), p.serial, p.segments)
  {
    assert (before + [p])[..|before|] == before;
    hide AddSegments;
  }

  lemma PagesBytesFirst(pages: seq<Page>, tail: Bytes)
    requires pages != [] && ProperPage(pages[0]) && |pages[0].segments| <= 255 && Short(pages[0].segments)
             && AllProper(pages[1..]) && AllProper(pages)
    ensures PagesBytes(pages) + tail == WithPage(pages[0], PagesBytes(pages[1..]) + tail)
    ensures |PagesBytes(pages)| == PageSize(pages[0]) + |PagesBytes(pages[1..])|
  {
    hide *;
    PagesBytesAre(pages);
    var front, data, others := PageFront(pages[0]), Flatten(pages[0].segments), PagesBytes(pages[1..]);
    PageWith(pages[0], others);
    PageWith(pages[0], others + tail);
    assert (front + (data + others)) + tail == front + (data + (others + tail));
  }

  lemma PagesBytesAre(pages: seq<Page>)
    requires pages != [] && AllProper(pages)
    ensures |pages[0].segments| <= 255 && Short(pages[0].segments) && AllProper(pages[1..])
    ensures PagesBytes(pages) == WithPage(pages[0], PagesBytes(pages[1..]))
  {
    hide PageFront, Flatten;
  }

  lemma PageWith(p: Page, more: Bytes)
    requires ProperPage(p) && |p.segments| <= 255 && Short(p.segments)
    ensures WithPage(p, more) == PageFront(p) + (Flatten(p.segments) + more)
            && |WithPage(p, more)| == PageSize(p) + |more|
  {
    hide Flatten, Lengths, LittleEndian;
  }

  lemma PageStep(s: State, input: Bytes, consumed: nat, limit: nat)
    ensures ReadPages(s, input, consumed, limit) ==
            if consumed >= limit then Invalid
            else if input == [] then Tags(None)
            else if |input| < HEADER || input[..5] != CAPTURE || |input| < HEADER + input[26] then Invalid
            else AfterTurn(ReadSegments(s, LittleNumber(input[14..18]), input[HEADER..HEADER + input[26]],
                input[HEADER + input[26]..],
                                        consumed + HEADER + input[26], limit), limit)
  {
    hide ReadSegments, LittleNumber;
  }

  lemma PageIsRead(s: State, p: Page, more: Bytes, consumed: nat, start: nat, limit: nat)
    requires ProperPage(p) && |p.segments| <= 255 && Short(p.segments) && consumed < limit
             && start == consumed + HEADER + |p.segments|
    ensures ReadPages(s, WithPage(p, more), consumed, limit)
            == AfterTurn(ReadSegments(s, p.serial, Lengths(p.segments), Flatten(p.segments) + more, start, limit),
                limit)
  {
    hide *;
    var input, rest := WithPage(p, more), Flatten(p.segments) + more;
    HeaderIsRead(p, rest);
    PageWith(p, more);
    PageStep(s, input, consumed, limit);
    PageSizeIs(p);
  }

  lemma {:induction false} FoundInPages(before: seq<Page>, pages: seq<Page>)
    requires Found(AddPages(before).completed).Some?
    ensures Found(AddPages(before + pages).completed) == Found(AddPages(before).completed)
  {
    hide *;
    assert before + [] == before;
    if pages != [] {
      var front, last := pages[..|pages| - 1], pages[|pages| - 1];
      FoundInPages(before, front);
      assert (before + front) + [last] == before + pages;
      OneMorePage(before + front, last);
      FoundStays(AddPages(before + front), last.serial, last.segments);
    }
  }

  /** A file of the pages of one stream gives that stream's comments, whatever the paging. */
  lemma OneStreamFile(pages: seq<Page>, serial: nat, packets: seq<Bytes>, limit: nat)
    requires AllProper(pages) && forall i | 0 <= i < |pages| :: pages[i].serial == serial
    requires Segments(pages, serial) == LaceAll(packets) && |PagesBytes(pages)| < limit
    ensures ReadPages(State(map[], []), PagesBytes(pages), 0, limit)
            == Tags(match CommentsOf(packets) { case Some(body) => Some((serial, body)) case None => None })
  {
    hide *;
    assert [] + pages == pages && PagesBytes(pages) + [] == PagesBytes(pages);
    NoPages();
    if Found(AddPages(pages).completed).Some? {
      CommentsAreRead([], pages, [], 0, limit);
    } else {
      EndIsReached([], pages, 0, limit);
    }
    var packetsOf := map[serial := packets];
    forall s: nat ensures Segments(pages, s) == if s in packetsOf then LaceAll(packetsOf[s]) else [] {
      if s != serial { NoSegments(pages, serial, s); }
    }
    CommentsAreTheStreams(pages, packetsOf, serial);
  }

  lemma NoPages()
    ensures AddPages([]) == State(map[], []) && Found(State(map[], []).completed) == None
  {}

  lemma {:induction false} NoSegments(pages: seq<Page>, serial: nat, other: nat)
    requires (forall i | 0 <= i < |pages| :: pages[i].serial == serial) && other != serial
    ensures Segments(pages, other) == []
  {
    if pages != [] { NoSegments(pages[..|pages| - 1], serial, other); }
  }

  /******* The method *******/

  function CodecAt(codec: map<nat, Codec>, serial: nat): Option<Codec>
  {
    if serial in codec then Some(codec[serial]) else None
  }

  /** The codec map holds what each stream has announced. */
  ghost predicate Announced(codec: map<nat, Codec>, completed: Completed) {
    forall serial: nat :: CodecAt(codec, serial) == CodecOf(Of(completed, serial))
  }

  lemma NothingAnnounced()
    ensures Announced(map[], [])
  {}

  lemma AnnouncedAfter(codec: map<nat, Codec>, completed: Completed, serial: nat, packet: Bytes)
    requires Announced(codec, completed)
    ensures var kind := KindOf(CodecAt(codec, serial), packet);
            Announced(if kind.Head? then codec[serial := kind.codec] else codec, completed + [(serial, packet)])
  {
    hide *;
    var more := completed + [(serial, packet)];
    var kind := KindOf(CodecAt(codec, serial), packet);
    var after := if kind.Head? then codec[serial := kind.codec] else codec;
    forall other: nat ensures CodecAt(after, other) == CodecOf(Of(more, other)) {
      AnnouncedIs(codec, completed, other);
      OneMoreCompleted(completed, serial, packet, other);
      CodecAtIs(codec, serial, kind, other);
    }
    AnnouncedIf(after, more);
  }

  lemma AnnouncedIs(codec: map<nat, Codec>, completed: Completed, serial: nat)
    requires Announced(codec, completed)
    ensures CodecAt(codec, serial) == CodecOf(Of(completed, serial))
  {}

  lemma AnnouncedIf(codec: map<nat, Codec>, completed: Completed)
    requires forall serial: nat :: CodecAt(codec, serial) == CodecOf(Of(completed, serial))
    ensures Announced(codec, completed)
  {}

  lemma CodecAtIs(codec: map<nat, Codec>, serial: nat, kind: Kind, other: nat)
    ensures CodecAt(if kind.Head? then codec[serial := kind.codec] else codec, other) ==
            if kind.Head? && other == serial then Some(kind.codec) else CodecAt(codec, other)
  {}

  lemma OneMoreCompleted(completed: Completed, serial: nat, packet: Bytes, other: nat)
    ensures var more := completed + [(serial, packet)];
            CodecOf(Of(more, other)) ==
            if other != serial then CodecOf(Of(completed, other))
            else match KindOf(CodecOf(Of(completed, serial)),
                packet) { case Head(c) => Some(c) case _ => CodecOf(Of(completed, serial)) }
  {
    hide KindOf;
    var more, mine := completed + [(serial, packet)], Of(completed, serial);
    assert more[..|completed|] == completed;
    assert (mine + [packet])[..|mine|] == mine;
    assert Of(completed, other) + [] == Of(completed, other);
    assert Of(more, other) == Of(completed, other) + if other == serial then [packet] else [];
  }

  lemma EndsIs(s: State, serial: nat, segment: Bytes, codec: map<nat, Codec>)
    requires Announced(codec, s.completed) && |segment| != FULL
    ensures var kind := KindOf(CodecAt(codec, serial), PartialOf(s.packets, serial) + segment);
            Ends(s, serial, segment) == if kind.Comments? then Some(kind.body) else None
  {
    hide KindOf;
  }

  lemma SegmentStep(s: State, serial: nat, lace: Bytes, k: nat, rest: Bytes, consumed: nat, limit: nat)
    requires k < |lace|
    ensures var n := lace[k];
            ReadSegments(s, serial, lace[k..], rest, consumed, limit) ==
            if consumed + n > limit || |rest| < n then Stop(Invalid)
            else if Ends(s, serial, rest[..n]).Some? then Stop(Tags(Some((serial, Ends(s, serial, rest[..n]).value))))
            else ReadSegments(AddSegment(s, serial, rest[..n]), serial, lace[k + 1..], rest[n..], consumed + n, limit)
  {
    hide Ends, AddSegment;
    assert lace[k..][1..] == lace[k + 1..];
  }

  lemma FullSegment(s: State, serial: nat, segment: Bytes)
    requires |segment| == FULL
    ensures Ends(s, serial, segment) == None
    ensures AddSegment(s, serial, segment) == s.(packets := s.packets[serial := PartialOf(s.packets, serial) + segment])
  {}

  lemma LastSegment(s: State, serial: nat, segment: Bytes)
    requires |segment| != FULL
    ensures AddSegment(s, serial, segment) ==
            State(s.packets - {serial}, s.completed + [(serial, PartialOf(s.packets, serial) + segment)])
  {}

  /** One page's segments: packets grow by serial, and each one completed is looked at. */
  method ReadPageSegments(packets: map<nat, Bytes>, codec: map<nat, Codec>, ghost completed: Completed, serial: nat,
          lace: Bytes,
                          input: Bytes, before: nat, limit: nat)
      returns (stopped: Option<Outcome>, packetsAfter: map<nat, Bytes>, codecAfter: map<nat, Codec>,
          ghost completedAfter: Completed,
               rest: Bytes, consumed: nat)
    requires Announced(codec, completed)
    ensures var turn := ReadSegments(State(packets, completed), serial, lace, input, before, limit);
            if stopped.Some? then turn == Stop(stopped.value)
                else turn == Go(State(packetsAfter, completedAfter), rest, consumed)
    ensures stopped.None? ==> Announced(codecAfter, completedAfter) && |rest| <= |input|
  {
    hide ReadSegments, Ends, AddSegment, Announced, KindOf;
    packetsAfter, codecAfter, completedAfter, rest, consumed := packets, codec, completed, input, before;
    stopped := None;
    ghost var turn := ReadSegments(State(packets, completed), serial, lace, input, before, limit);
    assert lace[0..] == lace;
    for k := 0 to |lace|
      invariant ReadSegments(State(packetsAfter, completedAfter), serial, lace[k..], rest, consumed, limit) == turn
      invariant Announced(codecAfter, completedAfter) && |rest| <= |input|
    {
      var n := lace[k];
      ghost var s := State(packetsAfter, completedAfter);
      SegmentStep(s, serial, lace, k, rest, consumed, limit);
      if consumed + n > limit || |rest| < n { stopped := Some(Invalid); return; }
      consumed := consumed + n;
      var segment := rest[..n];
      rest := rest[n..];
      var packet := PartialOf(packetsAfter, serial) + segment;
      if n == FULL {
        FullSegment(s, serial, segment);
        packetsAfter := packetsAfter[serial := packet];
      } else {
        LastSegment(s, serial, segment);
        EndsIs(s, serial, segment, codecAfter);
        AnnouncedAfter(codecAfter, completedAfter, serial, packet);
        packetsAfter := packetsAfter - {serial};
        completedAfter := completedAfter + [(serial, packet)];
        match KindOf(CodecAt(codecAfter, serial), packet) {
          case Head(c) => codecAfter := codecAfter[serial := c];
          case Comments(body) => stopped := Some(Tags(Some((serial, body)))); return;
          case Other =>
        }
      }
    }
    NoLacesLeft(State(packetsAfter, completedAfter), serial, lace, rest, consumed, limit);
  }

  lemma NoLacesLeft(s: State, serial: nat, lace: Bytes, rest: Bytes, consumed: nat, limit: nat)
    ensures ReadSegments(s, serial, lace[|lace|..], rest, consumed, limit) == Go(s, rest, consumed)
  {}

  lemma TurnCases(turn: Turn, limit: nat)
    ensures turn.Stop? ==> AfterTurn(turn, limit) == turn.outcome
    ensures turn.Go? ==> AfterTurn(turn, limit) == ReadPages(turn.state, turn.rest, turn.consumed, limit)
  {}

  /** readOggComments, up to the parsing of the comments it finds. */
  method ReadOggComments(input: Bytes, limit: nat) returns (r: Outcome)
    ensures r == ReadPages(State(map[], []), input, 0, limit)
  {
    hide ReadPages, ReadSegments, AfterTurn, Announced, LittleNumber;
    var packets: map<nat, Bytes>, codec: map<nat, Codec> := map[], map[];
    ghost var completed: Completed := [];
    var rest, consumed: nat := input, 0;
    NothingAnnounced();
    PageStep(State(packets, completed), rest, consumed, limit);
    while consumed < limit
      invariant Announced(codec, completed)
      invariant ReadPages(State(packets, completed), rest, consumed, limit) ==
                ReadPages(State(map[], []), input, 0, limit)
      decreases |rest|
    {
      PageStep(State(packets, completed), rest, consumed, limit);
      if rest == [] { return Tags(None); }
      if |rest| < HEADER || rest[..5] != CAPTURE { return Invalid; }
      var serial, count := LittleNumber(rest[14..18]), rest[26];
      if |rest| < HEADER + count { return Invalid; }
      var lace := rest[HEADER..HEADER + count];
      ghost var turn := ReadSegments(State(packets, completed), serial, lace, rest[HEADER + count..],
          consumed + HEADER + count, limit);
      TurnCases(turn, limit);
      var stopped;
      stopped, packets, codec, completed, rest, consumed :=
        ReadPageSegments(packets, codec, completed, serial, lace, rest[HEADER + count..], consumed + HEADER + count,
            limit);
      if stopped.Some? { return stopped.value; }
    }
    PageStep(State(packets, completed), rest, consumed, limit);
    r := Invalid;
  }
}
