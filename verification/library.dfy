/**
 Tracks, smart-playlist rules and their in-memory meaning (internal/app/model.go).

 Unicode folding, white-space trimming and number printing are not defined here:
 they are the function-valued members of `Text`, so every result holds for any
 choice of them unless a law is required explicitly.
 */
module Library {
  import opened Wrappers

  datatype Text = Text(
    lower: string -> string,              // strings.ToLower
    trim: string -> string,               // strings.TrimSpace
    parse: string -> Option<real>,        // strconv.ParseFloat, finite results only
    float: int -> real,                   // float64 of an int or int64
    printInt: int -> string,              // fmt.Sprint of an int64
    printReal: real -> string,            // fmt.Sprint of a float64
    sqliteReal: real -> string            // SQLite's text form of a REAL
  )

  /** A dynamically typed Go value: a rule operand, or what `value` returns. */
  datatype Value = Nil | Boolean(b: bool) | Number(x: real) | Str(s: string) | Composite(printed: string)

  /** A rule or sort field; `Unlisted` is any other name (it names no track column). */
  datatype Field =
    | Title | Artist | Album | AlbumArtist | Genre | Key
    | Path | Filename | Format | Favorite | Bpm
    | Year | Duration | PlayCount | AddedAt | ModifiedAt | CreatedAt | LastPlayed
    | Disc | TrackNumber | Bitrate | SampleRate
    | Tag(name: string)
    | Unlisted(name: string)

  datatype Op =
    | Contains | NotContains | Eq | Ne | Gt | Gte | Lt | Lte | IsEmpty | IsNotEmpty
    | OtherOp(text: string)

  datatype Mode = All | Any | OtherMode

  datatype Rule =
    | Group(mode: Mode, rules: seq<Rule>)
    | Cond(field: Field, op: Op, value: Value)

  datatype Track = Track(
    id: string, title: string, artist: string, album: string, albumArtist: string, genre: string,
    path: string, filename: string, format: string, favorite: bool,
    year: int, duration: real, playCount: int, addedAt: int, modifiedAt: int, createdAt: int,
    lastPlayed: int, disc: int, number: int, bitrate: int, sampleRate: int,
    tags: map<string, seq<string>>)

  /******* Text helpers *******/

  predicate OccursAt(s: string, sub: string, i: int) { 0 <= i <= |s| - |sub| && s[i..i + |sub|] == sub }

  /** strings.Contains; also SQLite's instr(s, sub) > 0. */
  predicate Includes(s: string, sub: string) { exists i | 0 <= i <= |s| - |sub| :: OccursAt(s, sub, i) }

  /** strings.Compare: -1, 0 or 1, by code point. */
  function CompareText(a: string, b: string): (c: int)
    ensures -1 <= c <= 1
    ensures c == 0 <==> a == b
  {
    if a == [] then (if b == [] then 0 else -1)
    else if b == [] then 1
    else if a[0] < b[0] then -1
    else if b[0] < a[0] then 1
    else assert a == [a[0]] + a[1..] && b == [b[0]] + b[1..]; CompareText(a[1..], b[1..])
  }

  function ForwardSlashes(s: string): string {
    seq(|s|, i requires 0 <= i < |s| => if s[i] == '\\' then '/' else s[i])
  }

  function Print(T: Text, v: Value): string {
    match v
    case Nil => "<nil>"
    case Boolean(b) => if b then "true" else "false"
    case Number(x) => T.printReal(x)
    case Str(s) => s
    case Composite(p) => p
  }

  function Numeric(T: Text, v: Value): Option<real> { T.parse(Print(T, v)) }

  /******* Track values *******/

  function TagValues(t: Track, name: string): seq<string> {
    if name in t.tags then t.tags[name] else []
  }

  function Join(texts: seq<string>): string {
    if texts == [] then "" else if |texts| == 1 then texts[0] else texts[0] + "; " + Join(texts[1..])
  }

  function FirstPositive(T: Text, texts: seq<string>): Option<real> {
    if texts == [] then None
    else
      var n := T.parse(T.trim(texts[0]));
      if n.Some? && n.value > 0.0 then n else FirstPositive(T, texts[1..])
  }

  function FirstNonblank(T: Text, texts: seq<string>): Option<string> {
    if texts == [] then None
    else if T.trim(texts[0]) != "" then Some(T.trim(texts[0]))
    else FirstNonblank(T, texts[1..])
  }

  function BpmOf(T: Text, t: Track): Value {
    var a, b, c := FirstPositive(T, TagValues(t, "bpm")), FirstPositive(T, TagValues(t, "tbpm")),
        FirstPositive(T, TagValues(t, "tempo"));
    if a.Some? then Number(a.value) else if b.Some? then Number(b.value) else if c.Some? then Number(c.value) else Nil
  }

  function KeyOf(T: Text, t: Track): string {
    var a, b := FirstNonblank(T, TagValues(t, "initialkey")), FirstNonblank(T, TagValues(t, "initial_key"));
    var c, d := FirstNonblank(T, TagValues(t, "tkey")), FirstNonblank(T, TagValues(t, "key"));
    if a.Some? then a.value else if b.Some? then b.value else if c.Some? then c.value else if d.Some? then d.value
        else ""
  }

  function ValueOf(T: Text, t: Track, f: Field): Value {
    match f
    case Title => Str(t.title)
    case Artist => Str(t.artist)
    case Album => Str(t.album)
    case AlbumArtist => Str(t.albumArtist)
    case Genre => Str(t.genre)
    case Key => Str(KeyOf(T, t))
    case Path => Str(ForwardSlashes(t.path))
    case Filename => Str(t.filename)
    case Format => Str(t.format)
    case Favorite => Boolean(t.favorite)
    case Bpm => BpmOf(T, t)
    case Year => Number(T.float(t.year))
    case Duration => Number(t.duration)
    case PlayCount => Number(T.float(t.playCount))
    case AddedAt => Number(T.float(t.addedAt))
    case ModifiedAt => Number(T.float(t.modifiedAt))
    case CreatedAt => Number(T.float(t.createdAt))
    case LastPlayed => Number(T.float(t.lastPlayed))
    case Disc => Number(T.float(t.disc))
    case TrackNumber => Number(T.float(t.number))
    case Bitrate => Number(T.float(t.bitrate))
    case SampleRate => Number(T.float(t.sampleRate))
    case Tag(name) => Str(Join(TagValues(t, name)))
    case Unlisted(name) => Str(Join(TagValues(t, name)))
  }

  predicate Missing(T: Text, v: Value, f: Field) {
    match v
    case Nil => true
    case Str(s) => T.trim(s) == ""
    case Number(x) => x == 0.0 && f != PlayCount
    case _ => false
  }

  /******* Matching *******/

  predicate Holds(c: int, op: Op) {
    match op
    case Eq => c == 0
    case Ne => c != 0
    case Gt => c > 0
    case Gte => c >= 0
    case Lt => c < 0
    case Lte => c <= 0
    case _ => false
  }

  function Sign(a: real, b: real): int { if a < b then -1 else if a > b then 1 else 0 }

  predicate Compare(T: Text, a: Value, b: Value, op: Op) {
    if a.Nil? then op == Ne
    else if op == Contains then Includes(T.lower(Print(T, a)), T.lower(Print(T, b)))
    else if op == NotContains then !Includes(T.lower(Print(T, a)), T.lower(Print(T, b)))
    else if a.Number? then
      var n := Numeric(T, b);
      n.Some? && Holds(Sign(a.x, n.value), op)
    else Holds(CompareText(T.lower(Print(T, a)), T.lower(Print(T, b))), op)
  }

  predicate Negative(op: Op) { op == Ne || op == NotContains }

  function Positive(op: Op): Op { if op == Ne then Eq else if op == NotContains then Contains else op }

  predicate MatchTag(T: Text, values: seq<string>, op: Op, value: Value) {
    if op == IsEmpty then forall i | 0 <= i < |values| :: T.trim(values[i]) == ""
    else if op == IsNotEmpty then exists i | 0 <= i < |values| :: T.trim(values[i]) != ""
    else (exists i | 0 <= i < |values| :: Compare(T, Str(values[i]), value, Positive(op))) != Negative(op)
  }

  /** Rule.Match. */
  predicate Match(T: Text, r: Rule, t: Track) {
    match r
    case Group(All, rules) => forall i | 0 <= i < |rules| :: Match(T, rules[i], t)
    case Group(Any, rules) => exists i | 0 <= i < |rules| :: Match(T, rules[i], t)
    case Group(OtherMode, _) => false
    case Cond(field, op, value) =>
      if field.Tag? then MatchTag(T, TagValues(t, field.name), op, value)
      else if op == IsEmpty then Missing(T, ValueOf(T, t, field), field)
      else if op == IsNotEmpty then !Missing(T, ValueOf(T, t, field), field)
      else if field.Path? then Compare(T, ValueOf(T, t, field), Str(ForwardSlashes(Print(T, value))), op)
      else Compare(T, ValueOf(T, t, field), value, op)
  }

  /******* Validation *******/

  const FIELD_LIST :=
    "|title|artist|"
    + "album|albumArtist|genre|year|duration|playCount|addedAt|disc|number|bitrate|sampleRate|bpm|key|favorite|format|"
  const NUMERIC_LIST := "|year|duration" + ("|playCount|addedAt" + ("|disc|number" + ("|bitrate|sampleRate" + "|bpm|")))
  const OP_LIST := "|contains|notContains|eq|ne|gt|gte|lt|lte|"
  const PATH_OP_LIST := "|contains|notContains|eq|ne|"
  const MAX_NODES := 30
  const MAX_DEPTH := 4

  predicate NumericField(f: Field) {
    match f
    case Year | Duration | PlayCount | AddedAt | Disc | TrackNumber | Bitrate | SampleRate | Bpm => true
    case Unlisted(name) => Includes(NUMERIC_LIST, "|" + name + "|")
    case _ => false
  }

  /** Membership is tested by substring, so a name such as "title|artist" passes. */
  predicate KnownField(f: Field) {
    match f
    case Filename | ModifiedAt | CreatedAt | LastPlayed => false
    case Unlisted(name) => Includes(FIELD_LIST, "|" + name + "|")
    case _ => true
  }

  predicate ValidCond(T: Text, field: Field, op: Op, value: Value) {
    if field.Path? then
      op == IsEmpty || op == IsNotEmpty ||
      (value.Str? && value.s != "" &&
       match op
       case Contains | NotContains | Eq | Ne => true
       case OtherOp(text) => Includes(PATH_OP_LIST, "|" + text + "|")
       case _ => false)
    else
      && field != Tag("")
      && KnownField(field)
      && match op
         case IsEmpty | IsNotEmpty => true
         case OtherOp(text) => Includes(OP_LIST, "|" + text + "|") && (NumericField(field) ==> Numeric(T, value).Some?)
         case _ => NumericField(field) ==> Numeric(T, value).Some?
  }

  function Nodes(r: Rule): nat {
    match r
    case Group(_, rules) => 1 + NodesOf(rules)
    case Cond(_, _, _) => 1
  }

  function NodesOf(rules: seq<Rule>): nat {
    if rules == [] then 0 else Nodes(rules[0]) + NodesOf(rules[1..])
  }

  /** Every group is a non-empty all/any group and every leaf is well formed. */
  predicate WellFormed(T: Text, r: Rule) {
    match r
    case Group(mode, rules) =>
        mode != OtherMode && rules != [] && forall i | 0 <= i < |rules| :: WellFormed(T, rules[i])
    case Cond(field, op, value) => ValidCond(T, field, op, value)
  }

  /** The tree entered at group level `depth` never goes below level `MAX_DEPTH`. */
  predicate Shallow(r: Rule, depth: int) {
    depth <= MAX_DEPTH &&
    (r.Group? ==> forall i | 0 <= i < |r.rules| :: Shallow(r.rules[i], if r.rules[i].Group? then depth + 1 else depth))
  }

  predicate Valid(T: Text, r: Rule) { WellFormed(T, r) && Nodes(r) <= MAX_NODES && Shallow(r, 1) }

  lemma NodesSplit(a: seq<Rule>, b: seq<Rule>)
    ensures NodesOf(a + b) == NodesOf(a) + NodesOf(b)
  {
    if a == [] {
      assert a + b == b;
    } else {
      assert (a + b)[1..] == a[1..] + b;
      NodesSplit(a[1..], b);
    }
  }

  lemma NodesPrefix(rules: seq<Rule>, i: nat)
    requires i < |rules|
    ensures NodesOf(rules[..i + 1]) == NodesOf(rules[..i]) + Nodes(rules[i])
    ensures NodesOf(rules[..i + 1]) <= NodesOf(rules)
  {
    assert rules[..i + 1] == rules[..i] + [rules[i]];
    NodesSplit(rules[..i], [rules[i]]);
    assert rules == rules[..i + 1] + rules[i + 1..];
    NodesSplit(rules[..i + 1], rules[i + 1..]);
  }

  /** The recursive walk of Validate; `count` is the captured running node count. */
  method Walk(T: Text, r: Rule, depth: int, count: nat) returns (ok: bool, next: nat)
    ensures ok <==> WellFormed(T, r) && count + Nodes(r) <= MAX_NODES && Shallow(r, depth)
    ensures ok ==> next == count + Nodes(r)
    decreases r
  {
    hide ValidCond;
    next := count + 1;
    if next > MAX_NODES || depth > MAX_DEPTH { return false, next; }
    if r.Group? {
      if r.mode == OtherMode || |r.rules| == 0 { return false, next; }
      var i := 0;
      while i < |r.rules|
        invariant 0 <= i <= |r.rules|
        invariant next == count + 1 + NodesOf(r.rules[..i]) <= MAX_NODES
        invariant forall k | 0 <= k < i :: WellFormed(T, r.rules[k])
        invariant forall k | 0 <= k < i :: Shallow(r.rules[k], if r.rules[k].Group? then depth + 1 else depth)
      {
        NodesPrefix(r.rules, i);
        ok, next := Walk(T, r.rules[i], if r.rules[i].Group? then depth + 1 else depth, next);
        if !ok { return; }
        i := i + 1;
      }
      assert r.rules[..i] == r.rules;
      return true, next;
    }
    ok := ValidCond(T, r.field, r.op, r.value);
  }

  /** Rule.Validate accepts exactly the well-formed trees of at most 30 nodes and 4 group levels. */
  method Validate(T: Text, r: Rule) returns (ok: bool)
    ensures ok <==> Valid(T, r)
  {
    var n;
    ok, n := Walk(T, r, 1, 0);
  }
}
