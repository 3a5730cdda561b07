/**
 The tags of an Ogg file (internal/app/native_tags.go): the pages up to the comment packet, and
 the comments in it.
 */
module OggTags {
  import opened OggPackets
  import opened OggReader
  import opened Wrappers
  import V = VorbisComments

  /** readOggComments' result: no comment packet leaves the tags as they are, a malformed one is an error. */
  function TagsOf<T>(valid: Bytes -> bool, add: (T, V.Comment) -> T, tags: T, outcome: Outcome): Result<T> {
    match outcome
    case Invalid => Bad
    case Tags(None) => Ok(tags)
    case Tags(Some((_, body))) =>
      match V.ReadComments(valid, body)
      case Bad => Bad
      case Ok(comments) => Ok(V.Added(add, tags, comments))
  }

  /** readOggComments as a whole. */
  method ReadOggTags<T>(valid: Bytes -> bool, add: (T, V.Comment) -> T, input: Bytes, limit: nat, tags: T)
      returns (r: Result<T>)
    ensures r == TagsOf(valid, add, tags, ReadPages(State(map[], []), input, 0, limit))
  {
    hide ReadPages, V.ReadComments, V.Added;
    var outcome := ReadOggComments(input, limit);
    match outcome {
      case Invalid => return Bad;
      case Tags(found) =>
        if found.None? { return Ok(tags); }
        var ok, result := V.AddComments(valid, add, found.value.1, tags);
        if !ok { return Bad; }
        return Ok(result);
    }
  }

  /** However a stream with these comments is laced and paged, they are added, in order. */
  lemma TagsWhateverThePaging<T>(valid: Bytes -> bool, add: (T, V.Comment) -> T, tags: T, pages: seq<Page>, serial: nat,
                                 packets: seq<Bytes>, limit: nat, body: Bytes, comments: seq<V.Comment>,
                                 vendor: Bytes, tail: Bytes)
    requires AllProper(pages) && forall i | 0 <= i < |pages| :: pages[i].serial == serial
    requires Segments(pages, serial) == LaceAll(packets) && |PagesBytes(pages)| < limit
    requires CommentsOf(packets) == Some(body) && V.Hold(body, comments, vendor, tail)
    requires |comments| < V.SIZE && V.AllProper(valid, comments)
    ensures TagsOf(valid, add, tags, ReadPages(State(map[], []), PagesBytes(pages), 0, limit)) ==
            Ok(V.Added(add, tags, comments))
  {
    hide ReadPages, V.ReadComments, V.Added, V.Hold, V.AllProper, PagesBytes, AllProper, Segments, LaceAll, CommentsOf;
    OneStreamFile(pages, serial, packets, limit);
    V.WrittenAreRead(valid, body, comments, vendor, tail);
  }
}
