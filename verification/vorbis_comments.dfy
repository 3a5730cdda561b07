/**
 The comments in an Ogg comment packet (internal/app/native_tags.go): a vendor text, a count
 and that many length-prefixed KEY=VALUE texts. UTF-8 validity and the table of tags the pairs
 are added to are parameters.
 */
module VorbisComments {
  import opened ByteOrder
  import opened Wrappers

  type Bytes = seq<Byte>

  datatype Comment = Comment(key: Bytes, value: Bytes)

  const EQUALS: Byte := 61

  const SIZE: nat := 0x1_0000_0000

  /******* Reading *******/

  /** `take`: a length and so many bytes; what was taken and what is left. */
  function Take(b: Bytes): Result<(Bytes, Bytes)> {
    if |b| < 4 || LittleNumber(b[..4]) > |b| - 4 then Bad
    else
      var n := LittleNumber(b[..4]);
      Ok((b[4..4 + n], b[4 + n..]))
  }

  /** strings.Cut at the first equals sign. */
  function Cut(text: Bytes): (r: Option<Comment>)
    ensures r.Some? ==> EQUALS !in r.value.key && text == r.value.key + [EQUALS] + r.value.value
    ensures r.None? ==> EQUALS !in text
  {
    if text == [] then None
    else if text[0] == EQUALS then Some(Comment([], text[1..]))
    else
      match Cut(text[1..])
      case None => None
      case Some(c) => Some(Comment([text[0]] + c.key, c.value))
  }

  function ReadList(valid: Bytes -> bool, b: Bytes, count: nat): Result<seq<Comment>> {
    if count == 0 then Ok([])
    else
      match Take(b)
      case Bad => Bad
      case Ok((text, rest)) =>
        if Cut(text).None? || !valid(text) then Bad
        else
          match ReadList(valid, rest, count - 1)
          case Bad => Bad
          case Ok(others) => Ok([Cut(text).value] + others)
  }

  function ReadComments(valid: Bytes -> bool, b: Bytes): Result<seq<Comment>> {
    match Take(b)
    case Bad => Bad
    case Ok((_, rest)) => if |rest| < 4 then Bad else ReadList(valid, rest[4..], LittleNumber(rest[..4]))
  }

  /******* Writing *******/

  function TextOf(c: Comment): Bytes { c.key + [EQUALS] + c.value }

  function Sized(b: Bytes): Bytes { LittleEndian(|b|, 4) + b }

  function WriteList(comments: seq<Comment>): Bytes {
    if comments == [] then [] else Sized(TextOf(comments[0])) + WriteList(comments[1..])
  }

  function WriteComments(vendor: Bytes, comments: seq<Comment>): Bytes {
    Sized(vendor) + LittleEndian(|comments|, 4) + WriteList(comments)
  }

  /** A comment that can be written and read: no equals sign in its key, valid text, a 32-bit length. */
  ghost predicate Proper(valid: Bytes -> bool, c: Comment) {
    EQUALS !in c.key && valid(TextOf(c)) && |TextOf(c)| < SIZE
  }

  ghost predicate AllProper(valid: Bytes -> bool, comments: seq<Comment>) {
    forall i | 0 <= i < |comments| :: Proper(valid, comments[i])
  }

  /******* Both ways *******/

  lemma {:induction false} CutText(key: Bytes, value: Bytes)
    requires EQUALS !in key
    ensures Cut(key + [EQUALS] + value) == Some(Comment(key, value))
  {
    var text := key + [EQUALS] + value;
    if key == [] {
      assert text[1..] == value;
    } else {
      assert text[1..] == key[1..] + [EQUALS] + value;
      CutText(key[1..], value);
      assert key == [key[0]] + key[1..];
    }
  }

  lemma TakeSized(b: Bytes, tail: Bytes)
    requires |b| < SIZE
    ensures Take(Sized(b) + tail) == Ok((b, tail))
  {
    hide LittleEndian, LittleNumber, Power256;
    Power256Of8();
    NumberOfLittleEndian(|b|, 4);
    var all := Sized(b) + tail;
    assert all[..4] == LittleEndian(|b|, 4) && all[4..4 + |b|] == b && all[4 + |b|..] == tail;
  }

  lemma {:induction false} LittleNumberBytes(b: Bytes)
    ensures LittleNumber(b) < Power256(|b|) && LittleEndian(LittleNumber(b), |b|) == b
  {
    if b != [] {
      LittleNumberBytes(b[1..]);
      var n := LittleNumber(b);
      assert n % 256 == b[0] && n / 256 == LittleNumber(b[1..]);
      assert b == [b[0]] + b[1..];
    }
  }

  /** What is taken stood there under its length. */
  lemma TakenIsSized(b: Bytes)
    requires Take(b).Ok?
    ensures var (text, rest) := Take(b).value; b == Sized(text) + rest && |text| < SIZE
  {
    hide LittleEndian, LittleNumber, Power256;
    LittleNumberBytes(b[..4]);
    Power256Of8();
    var n := LittleNumber(b[..4]);
    assert b == b[..4] + (b[4..4 + n] + b[4 + n..]);
    assert Sized(b[4..4 + n]) == b[..4] + b[4..4 + n];
  }

  lemma {:induction false} ListReadsBack(valid: Bytes -> bool, comments: seq<Comment>, tail: Bytes)
    requires AllProper(valid, comments)
    ensures ReadList(valid, WriteList(comments) + tail, |comments|) == Ok(comments)
  {
    hide Take, Cut, Sized, LittleNumber, LittleEndian;
    if comments != [] {
      var c, rest := comments[0], comments[1..];
      ListReadsBack(valid, rest, tail);
      TakeSized(TextOf(c), WriteList(rest) + tail);
      CutText(c.key, c.value);
      assert WriteList(comments) + tail == Sized(TextOf(c)) + (WriteList(rest) + tail);
      assert comments == [c] + rest;
    }
  }

  lemma {:induction false} ListWasWritten(valid: Bytes -> bool, b: Bytes, count: nat) returns (tail: Bytes)
    requires ReadList(valid, b, count).Ok?
    ensures var comments := ReadList(valid, b, count).value;
            |comments| == count && AllProper(valid, comments) && b == WriteList(comments) + tail
    decreases count
  {
    hide Sized, Take, Cut;
    if count == 0 {
      tail := b;
      assert WriteList([]) + tail == b;
    } else {
      var (text, rest) := Take(b).value;
      TakenIsSized(b);
      tail := ListWasWritten(valid, rest, count - 1);
      var others := ReadList(valid, rest, count - 1).value;
      var c := Cut(text).value;
      assert ([c] + others)[1..] == others && TextOf(c) == text;
      assert b == Sized(text) + (WriteList(others) + tail) == (Sized(text) + WriteList(others)) + tail;
    }
  }

  /** The bytes hold these comments, under some vendor, and perhaps more after them. */
  ghost predicate Hold(b: Bytes, comments: seq<Comment>, vendor: Bytes, tail: Bytes) {
    |vendor| < SIZE && b == WriteComments(vendor, comments) + tail
  }

  lemma WrittenAreRead(valid: Bytes -> bool, b: Bytes, comments: seq<Comment>, vendor: Bytes, tail: Bytes)
    requires |comments| < SIZE && AllProper(valid, comments) && Hold(b, comments, vendor, tail)
    ensures ReadComments(valid, b) == Ok(comments)
  {
    hide LittleEndian, LittleNumber, Power256, Take, Sized, WriteList, ReadList, AllProper;
    Power256Of8();
    NumberOfLittleEndian(|comments|, 4);
    var count, list := LittleEndian(|comments|, 4), WriteList(comments);
    var rest := count + (list + tail);
    assert b == Sized(vendor) + rest;
    TakeSized(vendor, rest);
    assert rest[..4] == count && rest[4..] == list + tail;
    ListReadsBack(valid, comments, tail);
  }

  lemma ReadWereWritten(valid: Bytes -> bool, b: Bytes) returns (vendor: Bytes, tail: Bytes)
    requires ReadComments(valid, b).Ok?
    ensures var comments := ReadComments(valid, b).value;
            |comments| < SIZE && AllProper(valid, comments) && Hold(b, comments, vendor, tail)
  {
    hide LittleEndian, LittleNumber, Power256, Take, Sized, WriteList, ReadList, AllProper;
    Power256Of8();
    TakenIsSized(b);
    var rest := Take(b).value.1;
    vendor := Take(b).value.0;
    LittleNumberBytes(rest[..4]);
    tail := ListWasWritten(valid, rest[4..], LittleNumber(rest[..4]));
    var comments := ReadComments(valid, b).value;
    assert rest == rest[..4] + rest[4..];
    assert WriteComments(vendor, comments) + tail == Sized(vendor) + (rest[..4] + (WriteList(comments) + tail));
  }

  /**
   Each text of a comment packet stands behind its length in four bytes; KEY=VALUE is cut at its
   first equals sign.
   */
  lemma FormMeans(c: Comment)
    requires |TextOf(c)| < 0x1_0000_0000
    ensures TextOf(c) == c.key + [0x3D] + c.value
    ensures |Sized(TextOf(c))| == 4 + |TextOf(c)| && Sized(TextOf(c))[4..] == TextOf(c)
            && LittleNumber(Sized(TextOf(c))[..4]) == |TextOf(c)|
  {
    var n := |TextOf(c)|;
    assert Sized(TextOf(c))[..4] == LittleEndian(n, 4);
    Power256Of8();
    NumberOfLittleEndian(n, 4);
  }

  /** Exactly the bytes of some comments are read, and as those comments, in their order. */
  lemma CommentsReadExactly(valid: Bytes -> bool, b: Bytes, comments: seq<Comment>)
    ensures ReadComments(valid, b) == Ok(comments) <==>
            |comments| < 0x1_0000_0000 && AllProper(valid, comments)
                && exists vendor, tail :: Hold(b, comments, vendor, tail)
  {
    hide ReadComments, AllProper, Hold;
    if ReadComments(valid, b) == Ok(comments) {
      var vendor, tail := ReadWereWritten(valid, b);
    } else if |comments| < SIZE && AllProper(valid, comments) && exists vendor, tail ::
        Hold(b, comments, vendor, tail) {
      var vendor, tail :| Hold(b, comments, vendor, tail);
      WrittenAreRead(valid, b, comments, vendor, tail);
    }
  }

  /******* The loop *******/

  function Added<T>(add: (T, Comment) -> T, tags: T, comments: seq<Comment>): T {
    if comments == [] then tags else Added(add, add(tags, comments[0]), comments[1..])
  }

  /** readComments: pairs are added as they are read, from a shrinking slice. */
  method AddComments<T>(valid: Bytes -> bool, add: (T, Comment) -> T, b: Bytes, tags: T) returns (ok: bool, result: T)
    ensures ok == ReadComments(valid, b).Ok?
    ensures ok ==> result == Added(add, tags, ReadComments(valid, b).value)
  {
    hide Take, Cut, LittleNumber;
    result := tags;
    var vendor := Take(b);
    if vendor.Bad? { return false, result; }
    var rest := vendor.value.1;
    if |rest| < 4 { return false, result; }
    var count := LittleNumber(rest[..4]);
    rest := rest[4..];
    ghost var all := ReadList(valid, rest, count);
    for i := 0 to count
      invariant all.Ok? <==> ReadList(valid, rest, count - i).Ok?
      invariant all.Ok? ==> Added(add, tags, all.value) == Added(add, result, ReadList(valid, rest, count - i).value)
    {
      var taken := Take(rest);
      if taken.Bad? { return false, result; }
      var (text, left) := taken.value;
      var c := Cut(text);
      if c.None? || !valid(text) { return false, result; }
      ghost var others := ReadList(valid, left, count - i - 1);
      assert others.Ok? ==> ([c.value] + others.value)[1..] == others.value;
      result, rest := add(result, c.value), left;
    }
    ok := true;
  }
}
