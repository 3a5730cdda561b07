/**
 The smart-playlist rule compiler (internal/app/store_query.go) over the search projection
 (internal/app/store_search.go): a rule becomes an SQL predicate with positional `?`
 arguments. The predicate is kept as a tree instead of a string; its meaning is SQL's
 three-valued logic and its arguments are consumed in textual order.
 */
module RuleQuery {
  import opened Wrappers
  import opened Library

  /******* Rows *******/

  datatype Cell = Null | Int(n: int) | Real(x: real) | Chars(s: string)

  /** One value for each of the six folded text columns. */
  datatype SixTexts<+A> = SixTexts(title: A, artist: A, album: A, albumArtist: A, genre: A, key: A) {
    function Get(f: Field): A {
      match f
      case Title => title
      case Artist => artist
      case Album => album
      case AlbumArtist => albumArtist
      case Genre => genre
      case _ => key
    }
  }

  /** One row of track_search. */
  datatype SearchRow = SearchRow(
    texts: SixTexts<string>, bpm: Cell, addedAt: int, disc: int, number: int, empties: SixTexts<int>)

  /** Primary key and payload of track_tag_index. */
  datatype TagKey = TagKey(track: string, name: string, position: nat)
  datatype TagCells = TagCells(valueKey: string, nonempty: int)

  type TagIndex = map<TagKey, TagCells>

  /** The joined row a predicate is evaluated on; `tag` is bound inside the subquery. */
  datatype Row = Row(track: Track, search: SearchRow, tag: Option<TagCells>)

  function Bit(b: bool): int { if b then 1 else 0 }

  function BpmCell(T: Text, t: Track): Cell {
    match BpmOf(T, t) case Number(x) => Real(x) case _ => Null
  }

  function SearchRowOf(T: Text, t: Track): SearchRow {
    var texts := SixTexts(t.title, t.artist, t.album, t.albumArtist, t.genre, KeyOf(T, t));
    SearchRow(
      SixTexts(T.lower(texts.title), T.lower(texts.artist), T.lower(texts.album), T.lower(texts.albumArtist),
               T.lower(texts.genre), T.lower(texts.key)),
      BpmCell(T, t), t.addedAt, t.disc, t.number,
      SixTexts(Bit(T.trim(texts.title) == ""), Bit(T.trim(texts.artist) == ""), Bit(T.trim(texts.album) == ""),
               Bit(T.trim(texts.albumArtist) == ""), Bit(T.trim(texts.genre) == ""), Bit(T.trim(texts.key) == "")))
  }

  function TagCellsOf(T: Text, text: string): TagCells { TagCells(T.lower(text), Bit(T.trim(text) != "")) }

  ghost predicate HasTag(t: Track, k: TagKey) {
    k.track == t.id && k.name in t.tags && k.position < |t.tags[k.name]|
  }

  /** The two derived tables hold exactly what `t` projects to. */
  ghost predicate Projected(T: Text, search: map<string, SearchRow>, index: TagIndex, t: Track) {
    && t.id in search && search[t.id] == SearchRowOf(T, t)
    && (forall k | k in index && k.track == t.id :: HasTag(t, k))
    && (forall k | HasTag(t, k) :: k in index && index[k] == TagCellsOf(T, t.tags[k.name][k.position]))
  }

  ghost predicate OthersKept(before: TagIndex, after: TagIndex, id: string) {
    && (forall k: TagKey | k.track != id :: k in after <==> k in before)
    && (forall k | k in before && k in after && k.track != id :: after[k] == before[k])
  }

  /** The rows of `t` present so far: all of `done`, and the first `n` values of `name`. */
  ghost predicate WrittenKey(t: Track, done: set<string>, name: string, n: nat, k: TagKey) {
    HasTag(t, k) && (k.name in done || (k.name == name && k.position < n))
  }

  ghost predicate Written(T: Text, t: Track, index: TagIndex, done: set<string>, name: string, n: nat) {
    && (forall k | k in index && k.track == t.id :: WrittenKey(t, done, name, n, k))
    && (forall k | WrittenKey(t, done, name, n, k) ::
       k in index && index[k] == TagCellsOf(T, t.tags[k.name][k.position]))
  }

  lemma WrittenStart(T: Text, t: Track, index: TagIndex, done: set<string>, name: string)
    requires Written(T, t, index, done, "", 0)
    ensures Written(T, t, index, done, name, 0)
  {
    assert forall k :: WrittenKey(t, done, name, 0, k) <==> WrittenKey(t, done, "", 0, k);
  }

  lemma WrittenEnd(T: Text, t: Track, index: TagIndex, done: set<string>, name: string)
    requires name in t.tags && Written(T, t, index, done, name, |t.tags[name]|)
    ensures Written(T, t, index, done + {name}, "", 0)
  {
    assert forall k :: WrittenKey(t, done, name, |t.tags[name]|, k) <==> WrittenKey(t, done + {name}, "", 0, k);
  }

  lemma AllWritten(T: Text, t: Track, index: TagIndex)
    requires Written(T, t, index, t.tags.Keys, "", 0)
    ensures forall k | k in index && k.track == t.id :: HasTag(t, k)
    ensures forall k | HasTag(t, k) :: k in index && index[k] == TagCellsOf(T, t.tags[k.name][k.position])
  {
    assert forall k :: WrittenKey(t, t.tags.Keys, "", 0, k) <==> HasTag(t, k);
  }

  lemma NothingWritten(T: Text, t: Track, index: TagIndex)
    requires forall k | k in index :: k.track != t.id
    ensures Written(T, t, index, t.tags.Keys - t.tags.Keys, "", 0)
  {}

  lemma SameIndex(index: TagIndex, id: string)
    ensures OthersKept(index, index, id)
  {}

  lemma KeptOn(a: TagIndex, b: TagIndex, c: TagIndex, id: string)
    requires OthersKept(a, b, id) && OthersKept(b, c, id)
    ensures OthersKept(a, c, id)
  {}

  /** The derived tables, written row by row. */
  class SearchTables {
    var search: map<string, SearchRow>
    var index: TagIndex

    /** The inner loop of persistSearchTrack: one row per value of one tag. */
    method PersistTag(T: Text, t: Track, name: string, ghost done: set<string>)
      requires name in t.tags && name !in done && Written(T, t, index, done, name, 0)
      modifies this`index
      ensures Written(T, t, index, done, name, |t.tags[name]|)
      ensures OthersKept(old(index), index, t.id)
    {
      var values := t.tags[name];
      for i := 0 to |values|
        invariant Written(T, t, index, done, name, i)
        invariant OthersKept(old(index), index, t.id)
      {
        ghost var before := index;
        index := index[TagKey(t.id, name, i) := TagCellsOf(T, values[i])];
        assert forall k | WrittenKey(t, done, name, i + 1, k) ::
            k == TagKey(t.id, name, i) || WrittenKey(t, done, name, i, k);
      }
    }

    /** DELETE FROM track_tag_index WHERE track_id = id. */
    method DeleteTags(id: string)
      modifies this`index
      ensures forall k | k in index :: k.track != id
      ensures OthersKept(old(index), index, id)
    {
      index := map k | k in index && k.track != id :: index[k];
    }

    /** All rows of one more tag. */
    method InsertTag(T: Text, t: Track, name: string, ghost done: set<string>)
      requires name in t.tags && name !in done && Written(T, t, index, done, "", 0)
      modifies this`index
      ensures Written(T, t, index, done + {name}, "", 0) && OthersKept(old(index), index, t.id)
    {
      hide Written, OthersKept;
      WrittenStart(T, t, index, done, name);
      PersistTag(T, t, name, done);
      WrittenEnd(T, t, index, done, name);
    }

    method InsertTags(T: Text, t: Track)
      requires forall k | k in index :: k.track != t.id
      modifies this`index
      ensures Written(T, t, index, t.tags.Keys, "", 0)
      ensures OthersKept(old(index), index, t.id)
    {
      hide Written, OthersKept;
      NothingWritten(T, t, index);
      SameIndex(index, t.id);
      ghost var start := index;
      var names := t.tags.Keys;
      while names != {}
        invariant names <= t.tags.Keys && Written(T, t, index, t.tags.Keys - names, "", 0)
        invariant OthersKept(start, index, t.id)
        decreases |names|
      {
        var name :| name in names;
        ghost var before, done := index, t.tags.Keys - names;
        InsertTag(T, t, name, done);
        KeptOn(start, before, index, t.id);
        names := names - {name};
        assert done + {name} == t.tags.Keys - names;
      }
      assert t.tags.Keys - {} == t.tags.Keys;
    }

    /** persistSearchTrack: upsert the search row, replace the tag rows. */
    method PersistSearchTrack(T: Text, t: Track)
      modifies this
      ensures Projected(T, search, index, t)
      ensures search == old(search)[t.id := SearchRowOf(T, t)]
      ensures OthersKept(old(index), index, t.id)
    {
      search := search[t.id := SearchRowOf(T, t)];
      DeleteTags(t.id);
      InsertTags(T, t);
      AllWritten(T, t, index);
    }
  }

  /******* Predicates and their three-valued meaning *******/

  datatype Column = SearchColumn(f: Field) | SearchEmpty(f: Field) | TrackColumn(f: Field) | ValueKey | Nonempty

  datatype Expr = Col(c: Column) | NullExpr | Lower(e: Expr) | Trim(e: Expr) | FavoriteCase

  datatype Pred =
    | And(ps: seq<Pred>)
    | Or(ps: seq<Pred>)
    | Not(p: Pred)
    | IsNull(e: Expr)
    | NotNull(e: Expr)
    | EqualsInt(e: Expr, n: int)              // e = n
    | EqualsBlank(e: Expr)                    // e = ''
    | CompareParam(e: Expr, op: Op)           // e <op> ?
    | Instr(e: Expr, found: bool)             // instr(e, ?) > 0, or = 0
    | InTags(p: Pred)                         // t.id IN (SELECT ... WHERE v.tag_name = ? AND p)
    | Zero                                    // 0

  datatype Truth = Yes | No | Unknown

  function ToTruth(b: bool): Truth { if b then Yes else No }

  function AndT(a: Truth, b: Truth): Truth {
    if a == No || b == No then No else if a == Yes && b == Yes then Yes else Unknown
  }

  function OrT(a: Truth, b: Truth): Truth {
    if a == Yes || b == Yes then Yes else if a == No && b == No then No else Unknown
  }

  function NotT(a: Truth): Truth { match a case Yes => No case No => Yes case Unknown => Unknown }

  /** Number of `?` placeholders, left to right. */
  function Params(p: Pred): nat {
    match p
    case And(ps) => ParamsOf(ps)
    case Or(ps) => ParamsOf(ps)
    case Not(q) => Params(q)
    case CompareParam(_, _) | Instr(_, _) => 1
    case InTags(q) => 1 + Params(q)
    case _ => 0
  }

  function ParamsOf(ps: seq<Pred>): nat { if ps == [] then 0 else Params(ps[0]) + ParamsOf(ps[1..]) }

  /** The text SQLite or a registered Go function sees for a cell. */
  function GoText(T: Text, c: Cell): string {
    match c case Null => "" case Int(n) => T.printInt(n) case Real(x) => T.printReal(x) case Chars(s) => s
  }

  function SqliteText(T: Text, c: Cell): string {
    match c case Null => "" case Int(n) => T.printInt(n) case Real(x) => T.sqliteReal(x) case Chars(s) => s
  }

  function ColumnCell(T: Text, row: Row, c: Column): Cell {
    match c
    case SearchColumn(Bpm) => row.search.bpm
    case SearchColumn(AddedAt) => Int(row.search.addedAt)
    case SearchColumn(Disc) => Int(row.search.disc)
    case SearchColumn(TrackNumber) => Int(row.search.number)
    case SearchColumn(f) => Chars(row.search.texts.Get(f))
    case SearchEmpty(f) => Int(row.search.empties.Get(f))
    case ValueKey => if row.tag.Some? then Chars(row.tag.value.valueKey) else Null
    case Nonempty => if row.tag.Some? then Int(row.tag.value.nonempty) else Null
    case TrackColumn(f) => TrackCell(row.track, f)
  }

  /** A column of `tracks`; the path column is read through replace(t.path, '\', '/'). */
  function TrackCell(t: Track, f: Field): Cell {
    match f
    case Path => Chars(ForwardSlashes(t.path))
    case Filename => Chars(t.filename)
    case Format => Chars(t.format)
    case Favorite => Int(Bit(t.favorite))
    case Year => Int(t.year)
    case Duration => Real(t.duration)
    case PlayCount => Int(t.playCount)
    case AddedAt => Int(t.addedAt)
    case ModifiedAt => Int(t.modifiedAt)
    case CreatedAt => Int(t.createdAt)
    case LastPlayed => Int(t.lastPlayed)
    case Disc => Int(t.disc)
    case TrackNumber => Int(t.number)
    case Bitrate => Int(t.bitrate)
    case SampleRate => Int(t.sampleRate)
    case _ => Null
  }

  function EvalExpr(T: Text, row: Row, e: Expr): Cell {
    match e
    case Col(c) => ColumnCell(T, row, c)
    case NullExpr => Null
    case Lower(a) => Chars(T.lower(GoText(T, EvalExpr(T, row, a))))
    case Trim(a) => var c := EvalExpr(T, row, a); Chars(if c.Null? then "" else T.trim(GoText(T, c)))
    case FavoriteCase => Chars(if row.track.favorite then "true" else "false")
  }

  function CellNumber(c: Cell): real { match c case Int(n) => n as real case Real(x) => x case _ => 0.0 }

  /** SQLite order of two non-null cells: numbers by value and before text, text by code point. */
  function CompareCells(a: Cell, b: Cell): int {
    if a.Chars? && b.Chars? then CompareText(a.s, b.s)
    else if a.Chars? then 1
    else if b.Chars? then -1
    else Sign(CellNumber(a), CellNumber(b))
  }

  function CompareTruth(a: Cell, b: Cell, op: Op): Truth {
    if a.Null? || b.Null? then Unknown else ToTruth(Holds(CompareCells(a, b), op))
  }

  function Eval(T: Text, index: TagIndex, row: Row, p: Pred, args: seq<Cell>): Truth
    requires |args| == Params(p)
    decreases p, 0
  {
    match p
    case And(ps) => EvalAll(T, index, row, ps, args)
    case Or(ps) => EvalAny(T, index, row, ps, args)
    case Not(q) => NotT(Eval(T, index, row, q, args))
    case IsNull(e) => ToTruth(EvalExpr(T, row, e).Null?)
    case NotNull(e) => ToTruth(!EvalExpr(T, row, e).Null?)
    case EqualsInt(e, n) => CompareTruth(EvalExpr(T, row, e), Int(n), Eq)
    case EqualsBlank(e) => CompareTruth(EvalExpr(T, row, e), Chars(""), Eq)
    case CompareParam(e, op) => CompareTruth(EvalExpr(T, row, e), args[0], op)
    case Instr(e, found) =>
      var c := EvalExpr(T, row, e);
      if c.Null? || args[0].Null? then Unknown
      else ToTruth(Includes(SqliteText(T, c), SqliteText(T, args[0])) == found)
    case InTags(q) => ToTruth(exists k | k in index :: TagRowMatches(T, index, row, q, args, k))
    case Zero => No
  }

  /** The subquery's WHERE clause on one row of track_tag_index. */
  predicate TagRowMatches(T: Text, index: TagIndex, row: Row, q: Pred, args: seq<Cell>, k: TagKey)
    requires |args| == 1 + Params(q) && k in index
    decreases q, 1
  {
    k.track == row.track.id &&
    AndT(CompareTruth(Chars(k.name), args[0], Eq), Eval(T, index, row.(tag := Some(index[k])), q, args[1..])) == Yes
  }

  function EvalAll(T: Text, index: TagIndex, row: Row, ps: seq<Pred>, args: seq<Cell>): Truth
    requires |args| == ParamsOf(ps)
    decreases ps, 0
  {
    if ps == [] then Yes
    else AndT(Eval(T, index, row, ps[0], args[..Params(ps[0])]), EvalAll(T, index, row, ps[1..], args[Params(ps[0])..]))
  }

  function EvalAny(T: Text, index: TagIndex, row: Row, ps: seq<Pred>, args: seq<Cell>): Truth
    requires |args| == ParamsOf(ps)
    decreases ps, 0
  {
    if ps == [] then No
    else OrT(Eval(T, index, row, ps[0], args[..Params(ps[0])]), EvalAny(T, index, row, ps[1..], args[Params(ps[0])..]))
  }

  /******* The compiler *******/

  datatype Query = Query(p: Pred, args: seq<Cell>)

  ghost predicate Closed(q: Query) { |q.args| == Params(q.p) }

  /** fieldSQL: the column expression of a field and whether it is numeric. */
  function FieldSql(f: Field): (Expr, bool) {
    match f
    case Title | Artist | Album | AlbumArtist | Genre | Key => (Col(SearchColumn(f)), false)
    case Bpm => (Col(SearchColumn(Bpm)), true)
    case Path | Filename | Format | Favorite => (Col(TrackColumn(f)), false)
    case Tag(_) | Unlisted(_) => (NullExpr, false)
    case _ => (Col(TrackColumn(f)), true)
  }

  predicate IsSearchColumn(e: Expr) { e.Col? && e.c.SearchColumn? }

  /** emptySQL. */
  function EmptySql(e: Expr, f: Field, number: bool): Pred {
    if IsSearchColumn(e) && !number then EqualsInt(Col(SearchEmpty(e.c.f)), 1)
    else if number && f != PlayCount then Or([IsNull(e), EqualsInt(e, 0)])
    else if number || f == Favorite then IsNull(e)
    else EqualsBlank(Trim(e))
  }

  /** foldSQL. */
  function FoldSql(e: Expr): Expr { if IsSearchColumn(e) || e == Col(ValueKey) then e else Lower(e) }

  lemma ParamsOfTwo(a: Pred, b: Pred)
    ensures ParamsOf([a, b]) == Params(a) + Params(b)
  {
    assert [a, b][1..] == [b] && [b][1..] == [];
    assert ParamsOf([b]) == Params(b);
  }

  /** comparisonSQL. */
  function ComparisonSql(T: Text, e: Expr, op: Op, value: Value, number: bool): (q: Query)
    ensures Closed(q)
  {
    if op == Contains || op == NotContains then
      ParamsOfTwo(NotNull(e), Instr(FoldSql(e), op == Contains));
      Query(And([NotNull(e), Instr(FoldSql(e), op == Contains)]), [Chars(T.lower(Print(T, value)))])
    else if op.OtherOp? || op == IsEmpty || op == IsNotEmpty || (number && Numeric(T, value).None?) then Query(Zero, [])
    else
      var lhs := if number then e else FoldSql(e);
      var rhs := if number then Real(Numeric(T, value).value) else Chars(T.lower(Print(T, value)));
      ParamsOfTwo(IsNull(e), CompareParam(lhs, op));
      ParamsOfTwo(NotNull(e), CompareParam(lhs, op));
      if op == Ne then Query(Or([IsNull(e), CompareParam(lhs, op)]), [rhs])
      else Query(And([NotNull(e), CompareParam(lhs, op)]), [rhs])
  }

  /** The condition on one row of the tag index. */
  function TagCondition(T: Text, op: Op, value: Value): (q: Query)
    ensures Closed(q)
  {
    if op == IsEmpty || op == IsNotEmpty then Query(EqualsInt(Col(Nonempty), 1), [])
    else ComparisonSql(T, Col(ValueKey), Positive(op), value, false)
  }

  function CompileTag(T: Text, name: string, op: Op, value: Value): (q: Query)
    ensures Closed(q)
  {
    var inner := TagCondition(T, op, value);
    var p := InTags(inner.p);
    Query(if Negative(op) || op == IsEmpty then Not(p) else p, [Chars(name)] + inner.args)
  }

  function CompileCond(T: Text, field: Field, op: Op, value: Value): (q: Query)
    ensures Closed(q)
  {
    if field.Tag? then CompileTag(T, field.name, op, value)
    else
      var (e, number) := FieldSql(field);
      if op == IsEmpty then Query(EmptySql(e, field, number), [])
      else if op == IsNotEmpty then Query(Not(EmptySql(e, field, number)), [])
      else if field == Favorite && value.Boolean? && (op == Eq || op == Ne) then
        Query(CompareParam(e, op), [Int(Bit(value.b))])
      else
        var operand := if field == Path then Str(ForwardSlashes(Print(T, value))) else value;
        ComparisonSql(T, if field == Favorite then FavoriteCase else e, op, operand, number)
  }

  /** The `walk` of compileRule. */
  function CompileTree(T: Text, r: Rule): (q: Query)
    ensures Closed(q)
    decreases r
  {
    match r
    case Group(mode, rules) =>
      var (ps, args) := CompileParts(T, rules);
      Query(if mode == Any then Or(ps) else And(ps), args)
    case Cond(field, op, value) => CompileCond(T, field, op, value)
  }

  function CompileParts(T: Text, rules: seq<Rule>): (r: (seq<Pred>, seq<Cell>))
    ensures |r.1| == ParamsOf(r.0)
    decreases rules
  {
    if rules == [] then ([], [])
    else
      var q := CompileTree(T, rules[0]);
      var rest := CompileParts(T, rules[1..]);
      ([q.p] + rest.0, q.args + rest.1)
  }

  /** One child's part and arguments come before those of the children after it. */
  lemma OneMorePart(T: Text, rules: seq<Rule>, i: nat, parts: seq<Pred>, args: seq<Cell>)
    requires i < |rules|
    ensures var q, rest, next := CompileTree(T, rules[i]), CompileParts(T, rules[i..]), CompileParts(T, rules[i + 1..]);
            parts + rest.0 == (parts + [q.p]) + next.0 && args + rest.1 == (args + q.args) + next.1
  {
    assert rules[i..][1..] == rules[i + 1..] && rules[i..][0] == rules[i];
    hide CompileTree;
  }

  lemma TreeOf(T: Text, r: Rule)
    ensures r.Cond? ==> CompileTree(T, r) == CompileCond(T, r.field, r.op, r.value)
    ensures r.Group? ==>
              var (parts, args) := CompileParts(T, r.rules);
              CompileTree(T, r) == Query(if r.mode == Any then Or(parts) else And(parts), args)
    ensures CompileParts(T, []) == ([], [])
  {
    hide CompileCond;
  }

  /** compileRule's walk: parts and arguments are appended child by child. */
  method WalkRule(T: Text, r: Rule) returns (q: Query)
    ensures q == CompileTree(T, r)
    decreases r
  {
    hide CompileTree, CompileParts, CompileCond;
    TreeOf(T, r);
    match r {
      case Cond(field, op, value) =>
        q := CompileCond(T, field, op, value);
      case Group(mode, rules) =>
        var parts: seq<Pred>, args: seq<Cell> := [], [];
        assert rules[0..] == rules;
        for i := 0 to |rules|
          invariant parts + CompileParts(T, rules[i..]).0 == CompileParts(T, rules).0
          invariant args + CompileParts(T, rules[i..]).1 == CompileParts(T, rules).1
        {
          OneMorePart(T, rules, i, parts, args);
          var child := WalkRule(T, rules[i]);
          parts, args := parts + [child.p], args + child.args;
        }
        assert rules[|rules|..] == [];
        q := Query(if mode == Any then Or(parts) else And(parts), args);
    }
  }

  /** compileRule: invalid trees are errors. */
  method CompileRule(T: Text, r: Rule) returns (q: Option<Query>)
    ensures q == if Valid(T, r) then Some(CompileTree(T, r)) else None
  {
    var ok := Validate(T, r);
    if !ok { return None; }
    var compiled := WalkRule(T, r);
    q := Some(compiled);
  }
}
