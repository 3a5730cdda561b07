/**
 compileRule and Rule.Match agree: on every projected track the compiled predicate,
 evaluated in three-valued logic, is true exactly when the rule matches, and it is never
 unknown.
 */
module RuleAgreement {
  import opened Wrappers
  import opened Library
  import opened RuleQuery

  function RowOf(T: Text, t: Track): Row { Row(t, SearchRowOf(T, t), None) }

  function Answer(T: Text, index: TagIndex, t: Track, q: Query): Truth
    requires Closed(q)
  {
    Eval(T, index, RowOf(T, t), q.p, q.args)
  }

  /******* Hypotheses *******/

  /** Fields a rule may name when it is written in the documented way. */
  predicate Listed(f: Field) { !f.Unlisted? && KnownField(f) }

  function NumberText(T: Text, t: Track, f: Field): string {
    match f
    case Bpm => SqliteText(T, BpmCell(T, t))
    case _ => T.lower(GoText(T, TrackCell(t, f)))
  }

  /** SQL and Go show the same digits for this numeric field of the track. */
  predicate PrintsAlike(T: Text, t: Track, f: Field) {
    match ValueOf(T, t, f)
    case Number(x) => NumberText(T, t, f) == T.lower(T.printReal(x))
    case _ => true
  }

  /**
   What float64 keeps of the integers: zero, their order, and their place among the numbers
   that can be read.
   */
  ghost predicate FloatLaws(T: Text) {
    && (forall n: int :: T.float(n) == 0.0 <==> n == 0)
    && (forall m: int, n: int :: m <= n ==> T.float(m) <= T.float(n))
    && (forall n: int, text: string :: T.parse(text).Some? ==> Nearest(T.float(n), n as real, T.parse(text).value))
  }

  /** Rounding x to y passes no number z. */
  predicate Nearest(y: real, x: real, z: real) { (z >= x ==> z >= y) && (z <= x ==> z <= y) }

  /** Rounding x to y goes in a direction this comparison does not notice. */
  predicate RoundsFor(y: real, x: real, op: Op) {
    match op
    case Eq | Ne => y == x
    case Gt | Lte => y >= x
    case Gte | Lt => y <= x
    case _ => true
  }

  /** Match compares the float64 of an integer field, SQL the integer itself. */
  predicate Rounds(T: Text, t: Track, f: Field, op: Op) {
    match TrackCell(t, f)
    case Int(n) => RoundsFor(T.float(n), n as real, op)
    case _ => true
  }

  /** The number a field holds survives being printed and read again. */
  predicate PrintsBack(T: Text, t: Track, f: Field) {
    match ValueOf(T, t, f)
    case Number(x) => T.parse(T.printReal(x)) == Some(x)
    case _ => true
  }

  predicate Containment(op: Op) { op == Contains || op == NotContains }

  /** A condition whose verdict depends neither on how numbers are printed nor on how they are rounded. */
  predicate Comparable(T: Text, t: Track, field: Field, op: Op) {
    Listed(field)
    && (NumericField(field) ==> if Containment(op) then PrintsAlike(T, t, field) else Rounds(T, t, field, op))
  }

  predicate ComparableTree(T: Text, t: Track, r: Rule) {
    match r
    case Group(_, rules) => forall i | 0 <= i < |rules| :: ComparableTree(T, t, rules[i])
    case Cond(field, op, _) => Comparable(T, t, field, op)
  }

  /** Folding keeps the two texts of a boolean apart. */
  predicate FoldsBooleans(T: Text) { T.lower("true") != T.lower("false") }

  /******* Leaves *******/

  lemma EvalCons(T: Text, index: TagIndex, row: Row, p: Pred, ps: seq<Pred>, a: seq<Cell>, b: seq<Cell>)
    requires |a| == Params(p) && |b| == ParamsOf(ps)
    ensures ParamsOf([p] + ps) == |a| + |b|
    ensures EvalAll(T, index, row, [p] + ps, a + b) == AndT(Eval(T, index, row, p, a), EvalAll(T, index, row, ps, b))
    ensures EvalAny(T, index, row, [p] + ps, a + b) == OrT(Eval(T, index, row, p, a), EvalAny(T, index, row, ps, b))
  {
    assert ([p] + ps)[0] == p && ([p] + ps)[1..] == ps;
    assert (a + b)[..|a|] == a && (a + b)[|a|..] == b;
  }

  lemma EvalTwo(T: Text, index: TagIndex, row: Row, a: Pred, b: Pred, args: seq<Cell>)
    requires Params(a) == 0 && |args| == Params(b)
    ensures ParamsOf([a, b]) == Params(b)
    ensures EvalAll(T, index, row, [a, b], args) ==
            AndT(Eval(T, index, row, a, []), AndT(Eval(T, index, row, b, args), Yes))
    ensures EvalAny(T, index, row, [a, b], args) ==
            OrT(Eval(T, index, row, a, []), OrT(Eval(T, index, row, b, args), No))
  {
    EvalCons(T, index, row, b, [], args, []);
    assert [b] + [] == [b] && args + [] == args && [] + args == args && [a] + [b] == [a, b];
    EvalCons(T, index, row, a, [b], [], args);
  }

  lemma TextComparison(T: Text, index: TagIndex, row: Row, e: Expr, op: Op, value: Value, v: Value)
    requires !EvalExpr(T, row, e).Null? && !v.Nil? && !v.Number?
    requires EvalExpr(T, row, FoldSql(e)) == Chars(T.lower(Print(T, v)))
    ensures var q := ComparisonSql(T, e, op, value, false);
            Eval(T, index, row, q.p, q.args) == ToTruth(Compare(T, v, value, op))
  {
    hide EvalExpr, FoldSql, CompareText, Includes, Numeric, Print;
    var q := ComparisonSql(T, e, op, value, false);
    if q.p.And? {
      EvalTwo(T, index, row, q.p.ps[0], q.p.ps[1], q.args);
    } else if q.p.Or? {
      EvalTwo(T, index, row, q.p.ps[0], q.p.ps[1], q.args);
    }
  }

  /** The cell of a numeric column shows the number `v` holds, or NULL for none. */
  predicate Shows(T: Text, c: Cell, v: Value) {
    match c
    case Null => v.Nil?
    case Int(n) => v == Number(T.float(n))
    case Real(x) => v == Number(x)
    case Chars(_) => false
  }

  /** The two sides of a comparison with a number that was read decide alike when rounding goes unnoticed. */
  lemma RoundedVerdict(y: real, x: real, z: real, op: Op)
    requires Nearest(y, x, z) && RoundsFor(y, x, op) && !Containment(op)
    ensures Holds(Sign(x, z), op) == Holds(Sign(y, z), op)
  {}

  lemma NumberVerdict(T: Text, c: Cell, value: Value, v: Value, op: Op)
    requires FloatLaws(T) && Shows(T, c, v) && Numeric(T, value).Some? && !Containment(op)
    requires c.Int? ==> RoundsFor(T.float(c.n), c.n as real, op)
    ensures CompareTruth(c, Real(Numeric(T, value).value), op) ==
            if c.Null? then Unknown else ToTruth(Compare(T, v, value, op))
  {
    if c.Int? { RoundedVerdict(T.float(c.n), c.n as real, Numeric(T, value).value, op); }
  }

  lemma NumberComparison(T: Text, index: TagIndex, row: Row, e: Expr, op: Op, value: Value, v: Value)
    requires FloatLaws(T) && Shows(T, EvalExpr(T, row, e), v) && Numeric(T, value).Some?
    requires var c := EvalExpr(T, row, e); !Containment(op) && c.Int? ==> RoundsFor(T.float(c.n), c.n as real, op)
    requires (op == Contains || op == NotContains) && v.Number? ==>
               var c := EvalExpr(T, row, FoldSql(e));
               !c.Null? && SqliteText(T, c) == T.lower(Print(T, v))
    ensures var q := ComparisonSql(T, e, op, value, true);
            Eval(T, index, row, q.p, q.args) == ToTruth(Compare(T, v, value, op))
  {
    hide FloatLaws, CompareTruth, Compare, Numeric, EvalExpr, FoldSql, RoundsFor;
    var q := ComparisonSql(T, e, op, value, true);
    if Containment(op) {
      ContainsVerdict(T, EvalExpr(T, row, e), v, value, op);
    } else {
      NumberVerdict(T, EvalExpr(T, row, e), value, v, op);
    }
    if v.Nil? { NilVerdict(T, v, value, op); }
    if q.p.And? {
      EvalTwo(T, index, row, q.p.ps[0], q.p.ps[1], q.args);
    } else if q.p.Or? {
      EvalTwo(T, index, row, q.p.ps[0], q.p.ps[1], q.args);
    } else {
      OtherVerdict(T, v, value, op);
    }
  }

  lemma ContainsVerdict(T: Text, c: Cell, v: Value, value: Value, op: Op)
    requires Containment(op) && Shows(T, c, v)
    ensures Compare(T, v, value, op) ==
            (v.Number? && (Includes(T.lower(Print(T, v)), T.lower(Print(T, value))) == (op == Contains)))
  {}

  lemma NilVerdict(T: Text, v: Value, value: Value, op: Op)
    requires v.Nil?
    ensures Compare(T, v, value, op) == (op == Ne)
  {}

  lemma OtherVerdict(T: Text, v: Value, value: Value, op: Op)
    requires op.OtherOp? || op == IsEmpty || op == IsNotEmpty
    ensures !Compare(T, v, value, op)
  {}

  /** A numeric column shows the number Match reads, printed as assumed. */
  lemma NumberColumn(T: Text, t: Track, field: Field)
    requires Listed(field) && FieldSql(field).1
    ensures var c := EvalExpr(T, RowOf(T, t), FieldSql(field).0);
            Shows(T, c, ValueOf(T, t, field)) && (c.Int? ==> c == TrackCell(t, field))
    ensures ValueOf(T, t, field).Number? ==>
              var c := EvalExpr(T, RowOf(T, t), FoldSql(FieldSql(field).0));
              !c.Null? && SqliteText(T, c) == NumberText(T, t, field)
  {
    hide KeyOf;
  }

  /** A text column shows the text Match reads, folded. */
  lemma TextColumn(T: Text, t: Track, field: Field)
    requires Listed(field) && !field.Tag? && !FieldSql(field).1 && field != Favorite
    ensures ValueOf(T, t, field).Str? && !EvalExpr(T, RowOf(T, t), FieldSql(field).0).Null?
    ensures EvalExpr(T, RowOf(T, t), FoldSql(FieldSql(field).0)) == Chars(T.lower(ValueOf(T, t, field).s))
  {
    hide KeyOf, BpmOf, BpmCell, CompareText;
  }

  lemma NullOrZero(T: Text, index: TagIndex, row: Row, e: Expr, v: Value)
    requires FloatLaws(T) && Shows(T, EvalExpr(T, row, e), v)
    ensures var p := Or([IsNull(e), EqualsInt(e, 0)]);
            Params(p) == 0 && Eval(T, index, row, p, []) == ToTruth(v.Nil? || v.x == 0.0)
  {
    var c := EvalExpr(T, row, e);
    assert CompareTruth(c, Int(0), Eq) == if c.Null? then Unknown else ToTruth(CellNumber(c) == 0.0);
    EvalTwo(T, index, row, IsNull(e), EqualsInt(e, 0), []);
  }

  lemma EmptyNumber(T: Text, index: TagIndex, t: Track, field: Field)
    requires FloatLaws(T) && Listed(field) && FieldSql(field).1
    ensures var p := EmptySql(FieldSql(field).0, field, true);
            Params(p) == 0 && Eval(T, index, RowOf(T, t), p, []) == ToTruth(Missing(T, ValueOf(T, t, field), field))
  {
    var e, v := FieldSql(field).0, ValueOf(T, t, field);
    NumberColumn(T, t, field);
    if field == PlayCount {
      assert EmptySql(e, field, true) == IsNull(e);
    } else {
      NullOrZero(T, index, RowOf(T, t), e, v);
    }
  }

  lemma EmptyText(T: Text, index: TagIndex, t: Track, field: Field)
    requires Listed(field) && !field.Tag? && !FieldSql(field).1
    ensures var p := EmptySql(FieldSql(field).0, field, false);
            Params(p) == 0 && Eval(T, index, RowOf(T, t), p, []) == ToTruth(Missing(T, ValueOf(T, t, field), field))
  {
    hide KeyOf, BpmOf, CompareTruth, KnownField;
    var e, row := FieldSql(field).0, RowOf(T, t);
    if field != Favorite {
      if IsSearchColumn(e) {
        FlagTruth(T.trim(ValueOf(T, t, field).s) == "");
        assert EvalExpr(T, row, Col(SearchEmpty(field))) == Int(Bit(T.trim(ValueOf(T, t, field).s) == ""));
      } else {
        BlankTruth(T.trim(ValueOf(T, t, field).s));
        assert EvalExpr(T, row, Trim(e)) == Chars(T.trim(ValueOf(T, t, field).s));
      }
    }
  }

  lemma FlagTruth(b: bool)
    ensures CompareTruth(Int(Bit(b)), Int(1), Eq) == ToTruth(b)
  {}

  lemma BlankTruth(s: string)
    ensures CompareTruth(Chars(s), Chars(""), Eq) == ToTruth(s == "")
  {}

  /** Both sides of a non-tag condition give the same verdict. */
  ghost predicate Agrees(T: Text, index: TagIndex, t: Track, field: Field, op: Op, value: Value) {
    Answer(T, index, t, CompileCond(T, field, op, value)) == ToTruth(Match(T, Cond(field, op, value), t))
  }

  lemma FavoriteAgrees(T: Text, index: TagIndex, t: Track, op: Op, value: Value)
    requires FoldsBooleans(T) && value.Boolean? && (op == Eq || op == Ne)
    ensures Agrees(T, index, t, Favorite, op, value)
  {
  }

  lemma NumberAgrees(T: Text, index: TagIndex, t: Track, field: Field, op: Op, value: Value)
    requires FloatLaws(T) && Comparable(T, t, field, op) && FieldSql(field).1 && op != IsEmpty && op != IsNotEmpty
    requires Numeric(T, value).Some?
    ensures Agrees(T, index, t, field, op, value)
  {
    hide KnownField, ValueOf, NumberText, Eval, EvalExpr, ComparisonSql, Compare, FoldSql, SqliteText, CompileCond,
         Match, FieldSql, Shows, FloatLaws, TrackCell, RoundsFor, NumericField;
    ListedNumeric(field);
    NumberColumn(T, t, field);
    NumberCondition(T, t, field, op, value);
    if op == Contains || op == NotContains { NumbersPrinted(T, t, field, op); }
    NumberComparison(T, index, RowOf(T, t), FieldSql(field).0, op, value, ValueOf(T, t, field));
  }

  lemma ListedNumeric(f: Field)
    requires Listed(f) && FieldSql(f).1
    ensures NumericField(f)
  {}

  lemma NumbersPrinted(T: Text, t: Track, field: Field, op: Op)
    requires Comparable(T, t, field, op) && FieldSql(field).1 && (op == Contains || op == NotContains)
    ensures ValueOf(T, t, field).Number? ==> NumberText(T, t, field) == T.lower(Print(T, ValueOf(T, t, field)))
  {
    hide ValueOf, NumberText;
  }

  lemma NumberCondition(T: Text, t: Track, field: Field, op: Op, value: Value)
    requires Listed(field) && FieldSql(field).1 && op != IsEmpty && op != IsNotEmpty
    ensures CompileCond(T, field, op, value) == ComparisonSql(T, FieldSql(field).0, op, value, true)
    ensures Match(T, Cond(field, op, value), t) == Compare(T, ValueOf(T, t, field), value, op)
  {
    hide KnownField, ValueOf, ComparisonSql, Compare;
  }

  lemma FavoriteColumn(T: Text, t: Track)
    ensures ValueOf(T, t, Favorite) == Boolean(t.favorite) && !EvalExpr(T, RowOf(T, t), FavoriteCase).Null?
    ensures EvalExpr(T, RowOf(T, t), FoldSql(FavoriteCase)) == Chars(T.lower(Print(T, ValueOf(T, t, Favorite))))
  {
    hide SearchRowOf;
  }

  lemma TextCondition(T: Text, t: Track, field: Field, op: Op, value: Value)
    requires Listed(field) && !field.Tag? && !FieldSql(field).1 && op != IsEmpty && op != IsNotEmpty
    requires field == Favorite ==> !(value.Boolean? && (op == Eq || op == Ne))
    ensures var operand := if field == Path then Str(ForwardSlashes(Print(T, value))) else value;
            && CompileCond(T, field, op, value) ==
               ComparisonSql(T, if field == Favorite then FavoriteCase else FieldSql(field).0, op, operand, false)
            && Match(T, Cond(field, op, value), t) == Compare(T, ValueOf(T, t, field), operand, op)
  {
    hide KnownField, ValueOf, ComparisonSql, Compare;
  }

  lemma TextAgrees(T: Text, index: TagIndex, t: Track, field: Field, op: Op, value: Value)
    requires Listed(field) && !field.Tag? && !FieldSql(field).1 && op != IsEmpty && op != IsNotEmpty
    requires field == Favorite ==> !(value.Boolean? && (op == Eq || op == Ne))
    ensures Agrees(T, index, t, field, op, value)
  {
    hide EvalExpr, FoldSql, ComparisonSql, Compare, Eval, ValueOf, KnownField, CompileCond, Match, RowOf, FieldSql;
    TextCondition(T, t, field, op, value);
    var row, v := RowOf(T, t), ValueOf(T, t, field);
    if field == Favorite {
      FavoriteColumn(T, t);
      TextComparison(T, index, row, FavoriteCase, op, value, v);
    } else {
      TextColumn(T, t, field);
      TextComparison(T, index, row, FieldSql(field).0, op,
          if field == Path then Str(ForwardSlashes(Print(T, value))) else value, v);
    }
  }

  lemma EmptyAgrees(T: Text, index: TagIndex, t: Track, field: Field, op: Op, value: Value)
    requires FloatLaws(T) && Listed(field) && !field.Tag? && (op == IsEmpty || op == IsNotEmpty)
    ensures Agrees(T, index, t, field, op, value)
  {
    var (e, number) := FieldSql(field);
    if number { EmptyNumber(T, index, t, field); } else { EmptyText(T, index, t, field); }
    var p := EmptySql(e, field, number);
    assert Eval(T, index, RowOf(T, t), Not(p), []) == NotT(Eval(T, index, RowOf(T, t), p, []));
  }

  lemma ValidNumber(T: Text, field: Field, op: Op, value: Value)
    requires ValidCond(T, field, op, value) && Listed(field) && FieldSql(field).1 && op != IsEmpty && op != IsNotEmpty
    ensures Numeric(T, value).Some?
  {
  }

  lemma ColumnAgrees(T: Text, index: TagIndex, t: Track, field: Field, op: Op, value: Value)
    requires FoldsBooleans(T) && FloatLaws(T) && !field.Tag? && Comparable(T, t, field, op)
             && ValidCond(T, field, op, value)
    ensures Agrees(T, index, t, field, op, value)
  {
    if op == IsEmpty || op == IsNotEmpty {
      EmptyAgrees(T, index, t, field, op, value);
    } else if FieldSql(field).1 {
      ValidNumber(T, field, op, value);
      NumberAgrees(T, index, t, field, op, value);
    } else if field == Favorite && value.Boolean? && (op == Eq || op == Ne) {
      FavoriteAgrees(T, index, t, op, value);
    } else {
      TextAgrees(T, index, t, field, op, value);
    }
  }

  predicate ValueHit(T: Text, text: string, op: Op, value: Value) {
    if op == IsEmpty || op == IsNotEmpty then T.trim(text) != "" else Compare(T, Str(text), value, Positive(op))
  }

  predicate AnyHit(T: Text, values: seq<string>, op: Op, value: Value) {
    exists i | 0 <= i < |values| :: ValueHit(T, values[i], op, value)
  }

  lemma MatchTagHit(T: Text, values: seq<string>, op: Op, value: Value)
    ensures MatchTag(T, values, op, value) <==>
            AnyHit(T, values, op, value) != (Negative(op) || op == IsEmpty)
  {
    if op == IsEmpty || op == IsNotEmpty {
      assert forall i | 0 <= i < |values| :: ValueHit(T, values[i], op, value) == (T.trim(values[i]) != "");
    } else {
      assert forall i | 0 <= i < |values| ::
          ValueHit(T, values[i], op, value) == Compare(T, Str(values[i]), value, Positive(op));
    }
  }

  /** One row of the tag index answers like one tag value in memory. */
  lemma {:induction false} TagRowAgrees(T: Text, index: TagIndex, t: Track, k: TagKey, name: string, op: Op,
          value: Value)
    requires k in index && HasTag(t, k) && index[k] == TagCellsOf(T, t.tags[k.name][k.position])
    ensures var q := TagCondition(T, op, value);
            TagRowMatches(T, index, RowOf(T, t), q.p, [Chars(name)] + q.args, k) <==>
            k.name == name && ValueHit(T, t.tags[k.name][k.position], op, value)
  {
    hide Compare, ComparisonSql, CompareText, Includes, KeyOf, BpmOf, SearchRowOf;
    var q := TagCondition(T, op, value);
    var row := RowOf(T, t).(tag := Some(index[k]));
    if op == IsEmpty || op == IsNotEmpty { FlagTruth(T.trim(t.tags[k.name][k.position]) != ""); }
    assert ([Chars(name)] + q.args)[1..] == q.args;
    if op != IsEmpty && op != IsNotEmpty {
      TextComparison(T, index, row, Col(ValueKey), Positive(op), value, Str(t.tags[k.name][k.position]));
    }
  }

  ghost predicate AnyRow(T: Text, index: TagIndex, t: Track, name: string, op: Op, value: Value) {
    var q := TagCondition(T, op, value);
    exists k | k in index :: TagRowMatches(T, index, RowOf(T, t), q.p, [Chars(name)] + q.args, k)
  }

  lemma TagRowFound(T: Text, search: map<string, SearchRow>, index: TagIndex, t: Track, name: string, op: Op,
          value: Value)
    requires Projected(T, search, index, t) && AnyHit(T, TagValues(t, name), op, value)
    ensures AnyRow(T, index, t, name, op, value)
  {
    var hit :| 0 <= hit < |TagValues(t, name)| && ValueHit(T, TagValues(t, name)[hit], op, value);
    var k := TagKey(t.id, name, hit);
    assert HasTag(t, k);
    TagRowAgrees(T, index, t, k, name, op, value);
  }

  lemma TagRowAbsent(T: Text, search: map<string, SearchRow>, index: TagIndex, t: Track, name: string, op: Op,
          value: Value)
    requires Projected(T, search, index, t) && !AnyHit(T, TagValues(t, name), op, value)
    ensures !AnyRow(T, index, t, name, op, value)
  {
    var q := TagCondition(T, op, value);
    forall k | k in index && k.track == t.id
      ensures !TagRowMatches(T, index, RowOf(T, t), q.p, [Chars(name)] + q.args, k)
    {
      TagRowAgrees(T, index, t, k, name, op, value);
    }
  }

  lemma TagAgrees(T: Text, search: map<string, SearchRow>, index: TagIndex, t: Track, name: string, op: Op,
          value: Value)
    requires Projected(T, search, index, t)
    ensures Answer(T, index, t, CompileTag(T, name, op, value)) == ToTruth(MatchTag(T, TagValues(t, name), op, value))
  {
    hide MatchTag, AnyHit, AnyRow, CompileTag, Eval, Projected;
    MatchTagHit(T, TagValues(t, name), op, value);
    if AnyHit(T, TagValues(t, name), op, value) {
      TagRowFound(T, search, index, t, name, op, value);
    } else {
      TagRowAbsent(T, search, index, t, name, op, value);
    }
    TagQueryTruth(T, index, t, name, op, value);
  }

  lemma TagQueryTruth(T: Text, index: TagIndex, t: Track, name: string, op: Op, value: Value)
    ensures Answer(T, index, t, CompileTag(T, name, op, value)) ==
            ToTruth(AnyRow(T, index, t, name, op, value) != (Negative(op) || op == IsEmpty))
  {
    hide TagCondition, TagRowMatches;
    var q := TagCondition(T, op, value);
    assert Eval(T, index, RowOf(T, t), InTags(q.p), [Chars(name)] + q.args) ==
        ToTruth(AnyRow(T, index, t, name, op, value));
  }

  /******* Trees *******/

  lemma {:induction false} TreeAgrees(T: Text, search: map<string, SearchRow>, index: TagIndex, t: Track, r: Rule)
    requires FoldsBooleans(T) && FloatLaws(T) && Projected(T, search, index, t)
    requires WellFormed(T, r) && ComparableTree(T, t, r)
    ensures Answer(T, index, t, CompileTree(T, r)) == ToTruth(Match(T, r, t))
    decreases r
  {
    hide ValidCond, FloatLaws, Projected, CompileTag, MatchTag, Compare, Comparable, EvalAll, EvalAny, CompileParts,
         ValueOf, Missing, FieldSql, EmptySql, ComparisonSql, FoldsBooleans;
    match r
    case Group(mode, rules) =>
      PartsAgree(T, search, index, t, rules);
    case Cond(field, op, value) =>
      if field.Tag? {
        TagAgrees(T, search, index, t, field.name, op, value);
      } else {
        ColumnAgrees(T, index, t, field, op, value);
      }
  }

  lemma {:induction false} PartsAgree(T: Text, search: map<string, SearchRow>, index: TagIndex, t: Track,
          rules: seq<Rule>)
    requires FoldsBooleans(T) && FloatLaws(T) && Projected(T, search, index, t)
    requires forall i | 0 <= i < |rules| :: WellFormed(T, rules[i]) && ComparableTree(T, t, rules[i])
    ensures var (ps, args) := CompileParts(T, rules);
            && EvalAll(T, index, RowOf(T, t), ps, args) == ToTruth(forall i | 0 <= i < |rules| :: Match(T, rules[i], t))
            && EvalAny(T, index, RowOf(T, t), ps, args) == ToTruth(exists i | 0 <= i < |rules| :: Match(T, rules[i], t))
    decreases rules
  {
    hide EvalAll, EvalAny, CompileTree, CompileParts, Match, WellFormed, ComparableTree, Projected, Eval;
    if rules != [] {
      TreeAgrees(T, search, index, t, rules[0]);
      PartsAgree(T, search, index, t, rules[1..]);
      PartsStep(T, index, t, rules);
      FirstAndRest(T, rules, t);
    } else {
      NoParts(T, index, t);
    }
  }

  lemma NoParts(T: Text, index: TagIndex, t: Track)
    ensures var (ps, args) := CompileParts(T, []);
            && EvalAll(T, index, RowOf(T, t), ps, args) == Yes && EvalAny(T, index, RowOf(T, t), ps, args) == No
  {}

  lemma PartsStep(T: Text, index: TagIndex, t: Track, rules: seq<Rule>)
    requires rules != []
    ensures var (ps, args) := CompileParts(T, rules);
            var (qs, rest) := CompileParts(T, rules[1..]);
            var first := Answer(T, index, t, CompileTree(T, rules[0]));
            && EvalAll(T, index, RowOf(T, t), ps, args) == AndT(first, EvalAll(T, index, RowOf(T, t), qs, rest))
            && EvalAny(T, index, RowOf(T, t), ps, args) == OrT(first, EvalAny(T, index, RowOf(T, t), qs, rest))
  {
    hide Eval, EvalAll, EvalAny, CompileTree;
    var q, rest := CompileTree(T, rules[0]), CompileParts(T, rules[1..]);
    EvalCons(T, index, RowOf(T, t), q.p, rest.0, q.args, rest.1);
  }

  lemma FirstAndRest(T: Text, rules: seq<Rule>, t: Track)
    requires rules != []
    ensures (forall i | 0 <= i < |rules| :: Match(T, rules[i], t)) <==>
            Match(T, rules[0], t) && forall i | 0 <= i < |rules[1..]| :: Match(T, rules[1..][i], t)
    ensures (exists i | 0 <= i < |rules| :: Match(T, rules[i], t)) <==>
            Match(T, rules[0], t) || exists i | 0 <= i < |rules[1..]| :: Match(T, rules[1..][i], t)
  {
    assert forall i | 1 <= i < |rules| :: rules[i] == rules[1..][i - 1];
  }

  /** The main result: for every accepted rule the SQL predicate selects the tracks Match selects. */
  lemma CompiledRuleSelectsMatches(T: Text, search: map<string, SearchRow>, index: TagIndex, t: Track, r: Rule)
    requires FoldsBooleans(T) && FloatLaws(T) && Projected(T, search, index, t)
    requires Valid(T, r) && ComparableTree(T, t, r)
    ensures var q := CompileTree(T, r);
            Closed(q)
            && Eval(T, index, Row(t, search[t.id], None), q.p, q.args) == if Match(T, r, t) then Yes else No
  {
    TreeAgrees(T, search, index, t, r);
  }

  /** Writing one track's projection leaves every other track's projection in place. */
  lemma ProjectionKept(T: Text, search: map<string, SearchRow>, before: TagIndex, after: TagIndex, t: Track, u: Track)
    requires Projected(T, search, before, u) && OthersKept(before, after, t.id) && u.id != t.id
    ensures Projected(T, search[t.id := SearchRowOf(T, t)], after, u)
  {
  }

  /******* Where the two sides part *******/

  /** The laws of folding and trimming the results of this section use. */
  ghost predicate FoldLaws(T: Text) {
    && T.lower("") == "" && T.lower("a") == "a" && T.trim("") == "" && T.trim("a") == "a"
    && forall a, b :: T.lower(a + b) == T.lower(a) + T.lower(b)
  }

  lemma NothingBelowBlank(x: string)
    ensures CompareText(x, "") >= 0 && Includes(x, "")
    ensures x != "" ==> CompareText("", x) < 0 && !Includes("", x)
  {
    assert OccursAt(x, "", 0);
  }

  lemma {:induction false} LongerIsAbove(x: string)
    ensures CompareText(x + "a", x) > 0
  {
    if x != "" {
      assert (x + "a")[1..] == x[1..] + "a";
      LongerIsAbove(x[1..]);
    }
  }

  lemma IncludesItself(x: string)
    ensures Includes(x, x)
  {
    assert OccursAt(x, x, 0);
  }

  lemma NullComparison(T: Text, row: Row, op: Op, value: Value)
    ensures var q := ComparisonSql(T, NullExpr, op, value, false);
            Eval(T, map[], row, q.p, q.args) == ToTruth(op == Ne)
  {
    var q := ComparisonSql(T, NullExpr, op, value, false);
    if q.p.And? {
      EvalTwo(T, map[], row, q.p.ps[0], q.p.ps[1], q.args);
    } else if q.p.Or? {
      EvalTwo(T, map[], row, q.p.ps[0], q.p.ps[1], q.args);
    }
  }

  /** A name outside the list compiles to NULL: only isEmpty and ne hold, whatever the track. */
  lemma UnlistedSql(T: Text, t: Track, name: string, op: Op, value: Value)
    ensures Answer(T, map[], t, CompileCond(T, Unlisted(name), op, value)) == ToTruth(op == IsEmpty || op == Ne)
  {
    hide ComparisonSql, Eval, EvalAll, EvalAny, EmptySql, SearchRowOf;
    if op == IsEmpty || op == IsNotEmpty {
      UnlistedEmpty(T, t, name);
      NotTruth(T, RowOf(T, t), EmptySql(NullExpr, Unlisted(name), false));
    } else {
      NullComparison(T, RowOf(T, t), op, value);
    }
  }

  lemma NotTruth(T: Text, row: Row, p: Pred)
    requires Params(p) == 0
    ensures Params(Not(p)) == 0 && Eval(T, map[], row, Not(p), []) == NotT(Eval(T, map[], row, p, []))
  {}

  lemma UnlistedEmpty(T: Text, t: Track, name: string)
    ensures var p := EmptySql(NullExpr, Unlisted(name), false);
            Params(p) == 0 && Eval(T, map[], RowOf(T, t), p, []) == Yes
  {
    hide SearchRowOf, CompareTruth;
    BlankTruth("");
    assert EvalExpr(T, RowOf(T, t), Trim(NullExpr)) == Chars("");
  }

  /** The conditions on an unlisted name that no track can tell apart. */
  predicate Inert(T: Text, op: Op, value: Value) {
    op.OtherOp? || ((op == Lt || op == NotContains) && T.lower(Print(T, value)) == "")
  }

  function TrackTagged(name: string, text: string): Track {
    Track("", "", "", "", "", "", "", "", "", false, 0, 0.0, 0, 0, 0, 0, 0, 0, 0, 0, 0, map[name := [text]])
  }

  /** A tag text on which an unlisted, non-inert condition is answered differently. */
  function Separating(T: Text, op: Op, value: Value): string {
    match op
    case IsEmpty | IsNotEmpty => "a"
    case Gt => Print(T, value) + "a"
    case Lt | NotContains => ""
    case _ => Print(T, value)
  }

  /** What Match makes of a tag text under an unlisted name. */
  predicate UnlistedMatch(T: Text, text: string, op: Op, value: Value) {
    match op
    case IsEmpty => T.trim(text) == ""
    case IsNotEmpty => T.trim(text) != ""
    case _ => Compare(T, Str(text), value, op)
  }

  lemma UnlistedVerdicts(T: Text, t: Track, name: string, op: Op, value: Value)
    ensures Agrees(T, map[], t, Unlisted(name), op, value) <==>
            (op == IsEmpty || op == Ne) == UnlistedMatch(T, Join(TagValues(t, name)), op, value)
  {
    UnlistedSql(T, t, name, op, value);
    assert ValueOf(T, t, Unlisted(name)) == Str(Join(TagValues(t, name)));
  }

  lemma SeparatingMatch(T: Text, op: Op, value: Value)
    requires FoldLaws(T) && !Inert(T, op, value)
    ensures UnlistedMatch(T, Separating(T, op, value), op, value) != (op == IsEmpty || op == Ne)
  {
    var v := T.lower(Print(T, value));
    NothingBelowBlank(v);
    LongerIsAbove(v);
    IncludesItself(v);
  }

  lemma InertMatch(T: Text, text: string, op: Op, value: Value)
    requires Inert(T, op, value)
    ensures !UnlistedMatch(T, text, op, value)
  {
    NothingBelowBlank(T.lower(text));
  }

  lemma SeparatingDisagrees(T: Text, name: string, op: Op, value: Value)
    requires FoldLaws(T) && !Inert(T, op, value)
    ensures !Agrees(T, map[], TrackTagged(name, Separating(T, op, value)), Unlisted(name), op, value)
  {
    var s := Separating(T, op, value);
    var t := TrackTagged(name, s);
    UnlistedVerdicts(T, t, name, op, value);
    assert TagValues(t, name) == [s];
    SeparatingMatch(T, op, value);
  }

  /**
   Validate accepts some names outside its list, because it tests membership by substring.
   On such a condition SQL and Match agree for every track exactly when it is inert.
   */
  lemma UnlistedAgreesExactlyWhenInert(T: Text, name: string, op: Op, value: Value)
    requires FoldLaws(T)
    ensures (forall t :: Agrees(T, map[], t, Unlisted(name), op, value)) <==> Inert(T, op, value)
  {
    if Inert(T, op, value) {
      forall t ensures Agrees(T, map[], t, Unlisted(name), op, value) {
        UnlistedVerdicts(T, t, name, op, value);
        InertMatch(T, Join(TagValues(t, name)), op, value);
      }
    } else {
      SeparatingDisagrees(T, name, op, value);
    }
  }

  /** No name in the list begins with a t. */
  ghost predicate NoneWithT(list: string) { forall i | 0 <= i < |list| - 1 :: list[i] == '|' ==> list[i + 1] != 't' }

  lemma NoneWithTJoin(a: string, b: string)
    requires NoneWithT(a) && NoneWithT(b) && b != "" && b[0] != 't'
    ensures NoneWithT(a + b)
  {}

  lemma NumericNames()
    ensures NoneWithT(NUMERIC_LIST)
  {
    var c := "|bitrate|sampleRate" + "|bpm|";
    var d := "|disc|number" + c;
    NoneWithTJoin("|bitrate|sampleRate", "|bpm|");
    NoneWithTJoin("|disc|number", c);
    NoneWithTJoin("|playCount|addedAt", d);
    NoneWithTJoin("|year|duration", "|playCount|addedAt" + d);
  }

  lemma NotNumeric(name: string)
    requires |name| >= 2 && name[0] == '|' && name[1] == 't'
    ensures !Includes(NUMERIC_LIST, name)
  {
    NumericNames();
    var list := NUMERIC_LIST;
    forall i | 0 <= i <= |list| - |name| ensures !OccursAt(list, name, i) {
      if list[i..i + |name|] == name { assert list[i..i + |name|][0] == '|' && list[i..i + |name|][1] == 't'; }
    }
  }

  /** A concrete accepted rule of this kind: title|artist eq "1". */
  lemma SubstringNameIsAccepted(T: Text)
    requires FoldLaws(T)
    ensures Valid(T, Cond(Unlisted("title|artist"), Eq, Str("1")))
    ensures exists t :: !Agrees(T, map[], t, Unlisted("title|artist"), Eq, Str("1"))
  {
    var name := "|" + "title|artist" + "|";
    assert name == "|title|artist|";
    assert FIELD_LIST[0..|name|] == "|title|artist|";
    assert OccursAt(FIELD_LIST, name, 0);
    NotNumeric(name);
    SeparatingDisagrees(T, "title|artist", Eq, Str("1"));
  }

  predicate Comparison(op: Op) {
    match op case Eq | Ne | Gt | Gte | Lt | Lte => true case _ => false
  }

  /** Where rounding is noticed, the rounded number itself is the operand that shows it. */
  lemma RoundingNoticed(y: real, x: real, op: Op)
    requires Comparison(op) && !RoundsFor(y, x, op)
    ensures Holds(Sign(x, y), op) != Holds(Sign(y, y), op)
  {}

  lemma ComparisonTruth(T: Text, index: TagIndex, row: Row, e: Expr, op: Op, value: Value)
    requires EvalExpr(T, row, e).Int? && Comparison(op) && Numeric(T, value).Some?
    ensures var q := ComparisonSql(T, e, op, value, true);
            Eval(T, index, row, q.p, q.args) ==
            ToTruth(Holds(Sign(EvalExpr(T, row, e).n as real, Numeric(T, value).value), op))
  {
    hide EvalExpr, FoldSql, Numeric, CompareText;
    var rhs := Real(Numeric(T, value).value);
    EvalTwo(T, index, row, IsNull(e), CompareParam(e, op), [rhs]);
    EvalTwo(T, index, row, NotNull(e), CompareParam(e, op), [rhs]);
  }

  lemma IntegerColumn(T: Text, t: Track, f: Field)
    requires Listed(f) && NumericField(f) && TrackCell(t, f).Int?
    ensures EvalExpr(T, RowOf(T, t), FieldSql(f).0) == TrackCell(t, f)
    ensures ValueOf(T, t, f) == Number(T.float(TrackCell(t, f).n))
  {
    hide KeyOf, BpmOf, KnownField;
  }

  lemma NumberMatch(T: Text, y: real, value: Value, op: Op)
    requires Comparison(op) && Numeric(T, value).Some?
    ensures Compare(T, Number(y), value, op) == Holds(Sign(y, Numeric(T, value).value), op)
  {}

  lemma ComparisonQuery(T: Text, index: TagIndex, t: Track, f: Field, op: Op, value: Value)
    requires Listed(f) && NumericField(f) && Comparison(op) && TrackCell(t, f).Int? && Numeric(T, value).Some?
    ensures var z, n := Numeric(T, value).value, TrackCell(t, f).n;
            && Answer(T, index, t, CompileCond(T, f, op, value)) == ToTruth(Holds(Sign(n as real, z), op))
            && Match(T, Cond(f, op, value), t) == Holds(Sign(T.float(n), z), op)
            && (Agrees(T, index, t, f, op, value) <==>
                Holds(Sign(n as real, z), op) == Holds(Sign(T.float(n), z), op))
  {
    hide ComparisonSql, Compare, Numeric, EvalExpr, Eval, FieldSql, TrackCell, ValueOf, Match, CompileCond, KnownField,
         NumericField, Holds, RowOf;
    NumericFieldIsNumber(f);
    IntegerColumn(T, t, f);
    NumberCondition(T, t, f, op, value);
    ComparisonTruth(T, index, RowOf(T, t), FieldSql(f).0, op, value);
    NumberMatch(T, T.float(TrackCell(t, f).n), value, op);
  }

  /**
   On a numeric field a comparison agrees for every operand Validate accepts exactly when the
   float64 Match reads is the field's integer, or lies on the side this comparison does not
   notice.
   */
  lemma {:induction false} ComparisonAgreesExactly(T: Text, index: TagIndex, t: Track, f: Field, op: Op)
    requires FoldsBooleans(T) && FloatLaws(T) && PrintsBack(T, t, f)
    requires Listed(f) && NumericField(f) && Comparison(op)
    ensures (forall v | ValidCond(T, f, op, v) :: Agrees(T, index, t, f, op, v)) <==> Rounds(T, t, f, op)
  {
    hide FloatLaws, Agrees, RoundsFor, ValueOf, KnownField, PrintsBack, ValidCond, Numeric, Holds, TrackCell,
         NumericField,
         FieldSql;
    NumericFieldIsNumber(f);
    if Rounds(T, t, f, op) {
      forall v | ValidCond(T, f, op, v) ensures Agrees(T, index, t, f, op, v) { ColumnAgrees(T, index, t, f, op, v); }
    } else {
      var n := TrackCell(t, f).n;
      var v := Number(T.float(n));
      RoundedOperand(T, t, f, op);
      ComparisonQuery(T, index, t, f, op, v);
      RoundingNoticed(T.float(n), n as real, op);
      assert !Agrees(T, index, t, f, op, v);
    }
  }

  lemma RoundedOperand(T: Text, t: Track, f: Field, op: Op)
    requires Listed(f) && NumericField(f) && TrackCell(t, f).Int? && PrintsBack(T, t, f)
    ensures var v := Number(T.float(TrackCell(t, f).n)); ValidCond(T, f, op, v) || op.OtherOp?
    ensures Numeric(T, Number(T.float(TrackCell(t, f).n))) == Some(T.float(TrackCell(t, f).n))
  {
    hide KnownField, KeyOf, BpmOf;
  }

  function TrackNumbered(n: int): Track {
    Track("", "", "", "", "", "", "", "", "", false, 0, 0.0, 0, 0, 0, 0, 0, 0, n, 0, 0, map[])
  }

  /** The track number 2^53 + 1 is no float64: Match takes it for 2^53, SQL does not. */
  lemma LargeNumberDiffers(T: Text)
    requires T.float(9007199254740993) == 9007199254740992.0
    requires T.parse(T.printReal(9007199254740992.0)) == Some(9007199254740992.0)
    ensures var rule, t := Cond(TrackNumber, Eq, Number(9007199254740992.0)), TrackNumbered(9007199254740993);
            Valid(T, rule) && Match(T, rule, t) && Answer(T, map[], t, CompileTree(T, rule)) == No
  {
    hide Match, CompileCond, Eval, FieldSql;
    var v, t := Number(9007199254740992.0), TrackNumbered(9007199254740993);
    ComparisonQuery(T, map[], t, TrackNumber, Eq, v);
  }

  /** What a numeric field shows under contains: SQL's text on one side, Go's on the other. */
  lemma NumberContains(T: Text, index: TagIndex, t: Track, f: Field, op: Op, value: Value)
    requires Listed(f) && NumericField(f) && ValueOf(T, t, f).Number? && (op == Contains || op == NotContains)
    ensures var sought := T.lower(Print(T, value));
            Agrees(T, index, t, f, op, value) <==>
            Includes(NumberText(T, t, f), sought) == Includes(T.lower(T.printReal(ValueOf(T, t, f).x)), sought)
  {
    hide Includes, NumberText, FieldSql, FoldSql, ValueOf, NumericField, KnownField, Eval, EvalExpr, EvalAll,
         CompileCond, Match, SqliteText, Print, Shows;
    var e, sought := FieldSql(f).0, T.lower(Print(T, value));
    NumericFieldIsNumber(f);
    NumberColumn(T, t, f);
    ContainsQuery(T, f, op, value);
    ContainsMatch(T, t, f, op, value);
    ContainsTruth(T, index, RowOf(T, t), e, op == Contains, sought, ValueOf(T, t, f).x);
  }

  lemma ContainsMatch(T: Text, t: Track, f: Field, op: Op, value: Value)
    requires Listed(f) && NumericField(f) && ValueOf(T, t, f).Number? && (op == Contains || op == NotContains)
    ensures Match(T, Cond(f, op, value), t) ==
            (Includes(T.lower(T.printReal(ValueOf(T, t, f).x)), T.lower(Print(T, value))) == (op == Contains))
  {
    hide Includes, ValueOf, KnownField;
  }

  lemma ContainsTruth(T: Text, index: TagIndex, row: Row, e: Expr, found: bool, sought: string, x: real)
    requires Shows(T, EvalExpr(T, row, e), Number(x)) && !EvalExpr(T, row, FoldSql(e)).Null?
    ensures var p := And([NotNull(e), Instr(FoldSql(e), found)]);
            && Params(p) == 1
            && Eval(T, index, row, p, [Chars(sought)]) ==
               ToTruth(Includes(SqliteText(T, EvalExpr(T, row, FoldSql(e))), sought) == found)
  {
    hide Includes, EvalExpr, FoldSql, EvalAll;
    EvalTwo(T, index, row, NotNull(e), Instr(FoldSql(e), found), [Chars(sought)]);
    assert SqliteText(T, Chars(sought)) == sought;
  }

  lemma NumericFieldIsNumber(f: Field)
    requires Listed(f) && NumericField(f)
    ensures FieldSql(f).1 && !f.Tag? && f != Favorite && f != Path
  {}

  lemma ContainsQuery(T: Text, f: Field, op: Op, value: Value)
    requires Listed(f) && NumericField(f) && (op == Contains || op == NotContains)
    ensures var e := FieldSql(f).0;
            CompileCond(T, f, op, value) ==
                Query(And([NotNull(e), Instr(FoldSql(e), op == Contains)]), [Chars(T.lower(Print(T, value)))])
  {
    hide FoldSql;
  }

  lemma IncludeEachOther(a: string, b: string)
    requires Includes(a, b) && Includes(b, a)
    ensures a == b
  {
    var i :| OccursAt(a, b, i);
    assert a[0..|a|] == a;
  }

  /**
   On a numeric field contains and notContains agree for every operand Validate accepts exactly
   when SQL and Go print the field's number alike.
   */
  lemma ContainsAgreesExactly(T: Text, index: TagIndex, t: Track, f: Field, op: Op)
    requires Listed(f) && NumericField(f) && ValueOf(T, t, f).Number? && (op == Contains || op == NotContains)
    requires var shown, printed := NumberText(T, t, f), T.lower(T.printReal(ValueOf(T, t, f).x));
             T.lower(shown) == shown && T.lower(printed) == printed && T.parse(shown).Some? && T.parse(printed).Some?
    ensures (forall v | ValidCond(T, f, op, v) :: Agrees(T, index, t, f, op, v)) <==> PrintsAlike(T, t, f)
  {
    hide NumberText, ValueOf, Includes, ValidCond, Agrees, NumericField, KnownField;
    var shown, printed := NumberText(T, t, f), T.lower(T.printReal(ValueOf(T, t, f).x));
    TextOperand(T, f, op, shown);
    TextOperand(T, f, op, printed);
    if PrintsAlike(T, t, f) {
      forall v | ValidCond(T, f, op, v) ensures Agrees(T, index, t, f, op, v) { NumberContains(T, index, t, f, op, v); }
    } else {
      NumberContains(T, index, t, f, op, Str(shown));
      NumberContains(T, index, t, f, op, Str(printed));
      IncludesItself(shown);
      IncludesItself(printed);
      if Includes(shown, printed) && Includes(printed, shown) { IncludeEachOther(shown, printed); }
    }
  }

  lemma TextOperand(T: Text, f: Field, op: Op, text: string)
    requires Listed(f) && NumericField(f) && Containment(op) && T.parse(text).Some?
    ensures ValidCond(T, f, op, Str(text)) && Print(T, Str(text)) == text
  {
    hide KnownField;
  }

  /** SQLite prints the REAL 120 as "120.0" and Go as "120": bpm contains ".0" then differs. */
  lemma BpmTextDiffers(T: Text)
    requires T.trim("120") == "120" && T.parse("120") == Some(120.0) && T.lower("120") == "120" && T.lower(".0") == ".0"
    requires T.printReal(120.0) == "120" && T.sqliteReal(120.0) == "120.0"
    ensures !Agrees(T, map[], TrackTagged("bpm", "120"), Bpm, Contains, Str(".0"))
  {
    hide Includes, Agrees, TagValues;
    BpmTextOccurrences();
    BpmIs120(T);
    NumberContains(T, map[], TrackTagged("bpm", "120"), Bpm, Contains, Str(".0"));
  }

  lemma BpmIs120(T: Text)
    requires T.trim("120") == "120" && T.parse("120") == Some(120.0)
    ensures BpmOf(T, TrackTagged("bpm", "120")) == Number(120.0)
  {
    assert TagValues(TrackTagged("bpm", "120"), "bpm") == ["120"];
  }

  lemma BpmTextOccurrences()
    ensures Includes("120.0", ".0") && !Includes("120", ".0")
  {
    assert OccursAt("120.0", ".0", 3);
    assert "120"[0..2] == "12" && "120"[1..3] == "20" && "12"[0] != '.' && "20"[0] != '.';
    assert forall i | 0 <= i <= 1 :: !OccursAt("120", ".0", i);
  }
}
