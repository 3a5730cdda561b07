/**
 Track ordering twice: sortTracks in memory (internal/app/model.go) and orderSQL's
 ORDER BY over the search projection (internal/app/store_query.go), and the pages
 QueryTrackPage cuts from the ordered result.
 */
module Ordering {
  import opened Wrappers
  import opened Library
  import opened RuleQuery
  import opened RuleAgreement

  predicate SortField(f: Field) { !f.Tag? && !f.Unlisted? }

  /** The laws of rounding and folding the comparison of sort values relies on. */
  ghost predicate SortLaws(T: Text) {
    && FloatLaws(T)
    && CompareText(T.lower("false"), T.lower("true")) < 0
    && CompareText(T.lower(T.printInt(0)), T.lower(T.printInt(1))) < 0
  }

  /** The fields in order, without those seen before. */
  function Unrepeated(fields: seq<Field>, seen: set<Field>): (r: seq<Field>)
    ensures forall f | f in r :: f in fields
  {
    if fields == [] then []
    else if fields[0] in seen then Unrepeated(fields[1..], seen)
    else [fields[0]] + Unrepeated(fields[1..], seen + {fields[0]})
  }

  /** The requested field, then the tie-breakers. */
  function FieldList(first: Field): seq<Field> { [first, Artist, Album, Disc, TrackNumber, Title] }

  function SortFields(first: Field): seq<Field> { Unrepeated(FieldList(first), {}) }

  function FirstField(field: Option<Field>): Field { if field.None? then AddedAt else field.value }

  /******* sortTracks *******/

  /** The closure given to sort.SliceStable, from the field list on. */
  predicate LessBy(T: Text, fields: seq<Field>, first: Field, desc: bool, a: Track, b: Track) {
    if fields == [] then CompareText(a.id, b.id) < 0
    else
      var f, rest := fields[0], fields[1..];
      var av, bv := ValueOf(T, a, f), ValueOf(T, b, f);
      var am, bm := Missing(T, av, f), Missing(T, bv, f);
      if am != bm then !am
      else if am && bm then LessBy(T, rest, first, desc, a, b)
      else if av == bv then LessBy(T, rest, first, desc, a, b)
      else if Compare(T, av, bv, Eq) then LessBy(T, rest, first, desc, a, b)
      else Compare(T, av, bv, if f == first && desc then Gt else Lt)
  }

  predicate Less(T: Text, field: Option<Field>, desc: bool, a: Track, b: Track) {
    var first := FirstField(field);
    LessBy(T, SortFields(first), first, desc, a, b)
  }

  /******* orderSQL *******/

  datatype Term = ByPred(p: Pred) | ByExpr(e: Expr, desc: bool) | ById

  function OrderExpr(f: Field): Expr {
    match f
    case AddedAt | Disc | TrackNumber => Col(SearchColumn(f))
    case _ => FieldSql(f).0
  }

  function FieldTerms(f: Field, first: Field, desc: bool): seq<Term> {
    var e, number := OrderExpr(f), FieldSql(f).1;
    [ByPred(EmptySql(e, f, number)), ByExpr(if number then e else FoldSql(e), f == first && desc)]
  }

  function TermsOf(fields: seq<Field>, first: Field, desc: bool): seq<Term> {
    if fields == [] then [ById] else FieldTerms(fields[0], first, desc) + TermsOf(fields[1..], first, desc)
  }

  function OrderTerms(field: Option<Field>, desc: bool): seq<Term> {
    TermsOf(SortFields(FirstField(field)), FirstField(field), desc)
  }

  lemma FieldTermsNext(fields: seq<Field>, i: nat, seen: set<Field>, first: Field, desc: bool, terms: seq<Term>)
    requires i < |fields|
    ensures var f, rest := fields[i], TermsOf(Unrepeated(fields[i + 1..], seen + {fields[i]}), first, desc);
            terms + TermsOf(Unrepeated(fields[i..], seen), first, desc) ==
            (if f in seen then terms else terms + FieldTerms(f, first, desc)) + rest
  {
    hide FieldTerms;
    var f := fields[i];
    assert fields[i..][1..] == fields[i + 1..] && fields[i..][0] == f;
    if f in seen {
      assert seen + {f} == seen;
    } else {
      var rest := Unrepeated(fields[i + 1..], seen + {f});
      assert ([f] + rest)[1..] == rest;
    }
  }

  lemma LastTerm(seen: set<Field>, first: Field, desc: bool)
    ensures TermsOf(Unrepeated([], seen), first, desc) == [ById]
  {}

  /** orderSQL: one loop over the six fields with a `seen` set. */
  method OrderSql(field: Option<Field>, desc: bool) returns (terms: seq<Term>)
    ensures terms == OrderTerms(field, desc)
  {
    hide FieldTerms, FieldSql, EmptySql, TermsOf, Unrepeated, FieldList;
    var first := FirstField(field);
    var fields := FieldList(first);
    var seen: set<Field> := {};
    terms := [];
    assert fields[0..] == fields
        && [] + TermsOf(SortFields(first), first, desc) == TermsOf(SortFields(first), first, desc);
    for i := 0 to |fields|
      invariant terms + TermsOf(Unrepeated(fields[i..], seen), first, desc) == OrderTerms(field, desc)
    {
      var f := fields[i];
      FieldTermsNext(fields, i, seen, first, desc, terms);
      if f !in seen {
        terms := terms + FieldTerms(f, first, desc);
      }
      seen := seen + {f};
    }
    assert fields[|fields|..] == [];
    LastTerm(seen, first, desc);
    terms := terms + [ById];
  }

  /** A sort key; Eval's truth value is stored as 1, 0 or NULL. */
  function TermCell(T: Text, t: Track, term: Term): Cell {
    match term
    case ByPred(p) =>
      if Params(p) != 0 then Null
      else (match Eval(T, map[], RowOf(T, t), p, []) case Yes => Int(1) case No => Int(0) case Unknown => Null)
    case ByExpr(e, _) => EvalExpr(T, RowOf(T, t), e)
    case ById => Chars(t.id)
  }

  /** SQLite order of keys: NULL below everything else. */
  function CompareKeys(a: Cell, b: Cell): int {
    if a.Null? then (if b.Null? then 0 else -1) else if b.Null? then 1 else CompareCells(a, b)
  }

  datatype SortKey = SortKey(cell: Cell, desc: bool)

  function SortKeyOf(T: Text, t: Track, term: Term): SortKey
  {
    SortKey(TermCell(T, t, term), term.ByExpr? && term.desc)
  }

  function SortKeysOf(T: Text, t: Track, terms: seq<Term>): (keys: seq<SortKey>)
    ensures |keys| == |terms|
  {
    if terms == [] then [] else [SortKeyOf(T, t, terms[0])] + SortKeysOf(T, t, terms[1..])
  }

  function CompareKey(a: SortKey, b: SortKey): int
  {
    if a.desc then -CompareKeys(a.cell, b.cell) else CompareKeys(a.cell, b.cell)
  }

  /** Lexicographic order of two key lists of the same shape. */
  function Lexicographic(a: seq<SortKey>, b: seq<SortKey>): int
    requires |a| == |b|
  {
    if a == [] then 0
    else
      var c := CompareKey(a[0], b[0]);
      if c != 0 then c else Lexicographic(a[1..], b[1..])
  }

  predicate Before(T: Text, field: Option<Field>, desc: bool, a: Track, b: Track) {
    Lexicographic(SortKeysOf(T, a, OrderTerms(field, desc)), SortKeysOf(T, b, OrderTerms(field, desc))) < 0
  }

  /******* A strict total order *******/

  lemma {:induction false} TextOrder(a: string, b: string, c: string)
    ensures CompareText(a, b) == -CompareText(b, a)
    ensures CompareText(a, b) <= 0 && CompareText(b, c) <= 0 ==>
              CompareText(a, c) <= 0 && (CompareText(a, c) == 0 ==> CompareText(a, b) == 0 && CompareText(b, c) == 0)
  {
    if a != [] && b != [] { TextOrder(a[1..], b[1..], if c == [] then c else c[1..]); }
  }

  lemma CellOrder(a: Cell, b: Cell, c: Cell)
    ensures CompareKeys(a, b) == -CompareKeys(b, a)
    ensures CompareKeys(a, b) <= 0 && CompareKeys(b, c) <= 0 ==>
              CompareKeys(a, c) <= 0 && (CompareKeys(a, c) == 0 ==> CompareKeys(a, b) == 0 && CompareKeys(b, c) == 0)
  {
    if a.Chars? && b.Chars? { TextOrder(a.s, b.s, if c.Chars? then c.s else ""); }
  }

  ghost predicate SameShape(a: seq<SortKey>, b: seq<SortKey>)
  {
    |a| == |b| && forall i | 0 <= i < |a| :: a[i].desc == b[i].desc
  }

  lemma {:induction false} LexicographicOrder(a: seq<SortKey>, b: seq<SortKey>, c: seq<SortKey>)
    requires SameShape(a, b) && SameShape(b, c)
    ensures Lexicographic(a, b) == -Lexicographic(b, a)
    ensures Lexicographic(a, b) <= 0 && Lexicographic(b, c) <= 0 ==>
              Lexicographic(a, c) <= 0 &&
              (Lexicographic(a, c) == 0 ==> Lexicographic(a, b) == 0 && Lexicographic(b, c) == 0)
  {
    if a != [] {
      CellOrder(a[0].cell, b[0].cell, c[0].cell);
      CellOrder(c[0].cell, b[0].cell, a[0].cell);
      CellOrder(a[0].cell, c[0].cell, b[0].cell);
      CellOrder(b[0].cell, c[0].cell, a[0].cell);
      LexicographicOrder(a[1..], b[1..], c[1..]);
    }
  }

  lemma {:induction false} KeysShareShape(T: Text, a: Track, b: Track, terms: seq<Term>)
    ensures SameShape(SortKeysOf(T, a, terms), SortKeysOf(T, b, terms))
  {
    if terms != [] { KeysShareShape(T, a, b, terms[1..]); }
  }

  lemma {:induction false} TiesShareId(T: Text, fields: seq<Field>, first: Field, desc: bool, a: Track, b: Track)
    ensures var terms := TermsOf(fields, first, desc);
            Lexicographic(SortKeysOf(T, a, terms), SortKeysOf(T, b, terms)) == 0 ==> a.id == b.id
  {
    if fields == [] {
      IdDecides(T, a, b);
    } else {
      FieldFirst(T, fields, first, desc, a, b);
      TiesShareId(T, fields[1..], first, desc, a, b);
    }
  }

  lemma IdDecides(T: Text, a: Track, b: Track)
    ensures Lexicographic(SortKeysOf(T, a, [ById]), SortKeysOf(T, b, [ById])) == CompareText(a.id, b.id)
  {
    assert [ById][1..] == [];
    assert SortKeysOf(T, a, [ById]) == [SortKey(Chars(a.id), false)]
        && SortKeysOf(T, b, [ById]) == [SortKey(Chars(b.id), false)];
  }

  /** ORDER BY is irreflexive, transitive, and decides any two tracks with different IDs. */
  lemma BeforeIsStrictTotal(T: Text, field: Option<Field>, desc: bool, a: Track, b: Track, c: Track)
    ensures !Before(T, field, desc, a, a)
    ensures Before(T, field, desc, a, b) && Before(T, field, desc, b, c) ==> Before(T, field, desc, a, c)
    ensures a.id != b.id ==> Before(T, field, desc, a, b) != Before(T, field, desc, b, a)
  {
    var terms := OrderTerms(field, desc);
    KeysShareShape(T, a, a, terms);
    KeysShareShape(T, a, b, terms);
    KeysShareShape(T, b, c, terms);
    LexicographicOrder(SortKeysOf(T, a, terms), SortKeysOf(T, a, terms), SortKeysOf(T, a, terms));
    LexicographicOrder(SortKeysOf(T, a, terms), SortKeysOf(T, b, terms), SortKeysOf(T, c, terms));
    TiesShareId(T, SortFields(FirstField(field)), FirstField(field), desc, a, b);
  }

  /******* Agreement with sortTracks *******/

  /** Two absent texts fold alike; true when no text is non-empty but blank. */
  predicate BlanksAlike(T: Text, f: Field, a: Track, b: Track) {
    var av, bv := ValueOf(T, a, f), ValueOf(T, b, f);
    av.Str? && bv.Str? && T.trim(av.s) == "" && T.trim(bv.s) == "" ==> T.lower(av.s) == T.lower(bv.s)
  }

  /** sortTracks's decision on two values and their absence: -1, 0 (go on) or 1. */
  function StepOf(T: Text, av: Value, bv: Value, am: bool, bm: bool, flip: bool): int {
    if am != bm then (if am then 1 else -1)
    else if am && bm then 0
    else if av == bv || Compare(T, av, bv, Eq) then 0
    else if Compare(T, av, bv, if flip then Gt else Lt) then -1 else 1
  }

  function Step(T: Text, f: Field, flip: bool, a: Track, b: Track): int {
    var av, bv := ValueOf(T, a, f), ValueOf(T, b, f);
    StepOf(T, av, bv, Missing(T, av, f), Missing(T, bv, f), flip)
  }

  function FirstTwo(a0: SortKey, a1: SortKey, b0: SortKey, b1: SortKey): int {
    if CompareKey(a0, b0) != 0 then CompareKey(a0, b0) else CompareKey(a1, b1)
  }

  /** What the two ORDER BY terms of a field decide: -1, 0 (go on) or 1. */
  function SqlStep(T: Text, f: Field, first: Field, desc: bool, a: Track, b: Track): int {
    var two := FieldTerms(f, first, desc);
    FirstTwo(SortKeyOf(T, a, two[0]), SortKeyOf(T, a, two[1]), SortKeyOf(T, b, two[0]), SortKeyOf(T, b, two[1]))
  }

  lemma LexicographicTwo(a0: SortKey, a1: SortKey, a: seq<SortKey>, b0: SortKey, b1: SortKey, b: seq<SortKey>)
    requires |a| == |b|
    ensures Lexicographic([a0, a1] + a, [b0, b1] + b) ==
            var s := FirstTwo(a0, a1, b0, b1); if s != 0 then s else Lexicographic(a, b)
  {
    assert ([a0, a1] + a)[1..] == [a1] + a && ([a1] + a)[1..] == a;
    assert ([b0, b1] + b)[1..] == [b1] + b && ([b1] + b)[1..] == b;
  }

  lemma KeysOfTwo(T: Text, t: Track, x: Term, y: Term, rest: seq<Term>)
    ensures SortKeysOf(T, t, [x, y] + rest) == [SortKeyOf(T, t, x), SortKeyOf(T, t, y)] + SortKeysOf(T, t, rest)
  {
    assert ([x, y] + rest)[1..] == [y] + rest && ([y] + rest)[1..] == rest;
  }

  /** The keys of a field come first, those of the remaining fields after them. */
  lemma FieldFirst(T: Text, fields: seq<Field>, first: Field, desc: bool, a: Track, b: Track)
    requires fields != []
    ensures var terms, rest := TermsOf(fields, first, desc), TermsOf(fields[1..], first, desc);
            var s := SqlStep(T, fields[0], first, desc, a, b);
            Lexicographic(SortKeysOf(T, a, terms), SortKeysOf(T, b, terms)) ==
            if s != 0 then s else Lexicographic(SortKeysOf(T, a, rest), SortKeysOf(T, b, rest))
  {
    var two, rest := FieldTerms(fields[0], first, desc), TermsOf(fields[1..], first, desc);
    var x, y := two[0], two[1];
    assert two == [x, y];
    KeysOfTwo(T, a, x, y, rest);
    KeysOfTwo(T, b, x, y, rest);
    LexicographicTwo(SortKeyOf(T, a, x), SortKeyOf(T, a, y), SortKeysOf(T, a, rest), SortKeyOf(T, b, x),
        SortKeyOf(T, b, y), SortKeysOf(T, b, rest));
  }

  /** The two columns of a field show its absence and its folded or numeric value. */
  lemma OrderNumber(T: Text, t: Track, f: Field)
    requires FloatLaws(T) && SortField(f) && FieldSql(f).1
    ensures TermCell(T, t, ByPred(EmptySql(OrderExpr(f), f, true))) == Int(Bit(Missing(T, ValueOf(T, t, f), f)))
    ensures var c := EvalExpr(T, RowOf(T, t), OrderExpr(f));
            Shows(T, c, ValueOf(T, t, f)) && c == if f == Bpm then BpmCell(T, t) else TrackCell(t, f)
  {
    hide KeyOf, BpmOf, CompareText, FloatLaws;
    var e := OrderExpr(f);
    NumberCell(T, t, f);
    if f == PlayCount {
      assert EmptySql(e, f, true) == IsNull(e);
    } else {
      NullOrZero(T, map[], RowOf(T, t), e, ValueOf(T, t, f));
    }
  }

  lemma NumberCell(T: Text, t: Track, f: Field)
    requires SortField(f) && FieldSql(f).1
    ensures var c := EvalExpr(T, RowOf(T, t), OrderExpr(f));
            Shows(T, c, ValueOf(T, t, f)) && c == if f == Bpm then BpmCell(T, t) else TrackCell(t, f)
  {
    hide KeyOf, BpmOf;
    BpmPositive(T, t);
  }

  /** The folded key SQL compares for a text or boolean field. */
  function FoldedText(T: Text, t: Track, f: Field): string {
    match ValueOf(T, t, f)
    case Str(s) => T.lower(s)
    case _ => T.lower(T.printInt(Bit(t.favorite)))
  }

  lemma OrderText(T: Text, t: Track, f: Field)
    requires SortField(f) && !FieldSql(f).1
    ensures TermCell(T, t, ByPred(EmptySql(OrderExpr(f), f, false))) == Int(Bit(Missing(T, ValueOf(T, t, f), f)))
    ensures EvalExpr(T, RowOf(T, t), FoldSql(OrderExpr(f))) == Chars(FoldedText(T, t, f))
    ensures if f == Favorite then ValueOf(T, t, f) == Boolean(t.favorite)
            else ValueOf(T, t, f).Str? && FoldedText(T, t, f) == T.lower(ValueOf(T, t, f).s)
  {
    hide KeyOf, BpmOf, CompareText, Eval, EmptySql;
    SortText(T, t, f);
  }

  lemma SortText(T: Text, t: Track, f: Field)
    requires SortField(f) && !FieldSql(f).1
    ensures var p := EmptySql(FieldSql(f).0, f, false);
            Params(p) == 0 && Eval(T, map[], RowOf(T, t), p, []) == ToTruth(Missing(T, ValueOf(T, t, f), f))
  {
    if f == Filename {
      var e: Expr := Col(TrackColumn(Filename));
      assert EvalExpr(T, RowOf(T, t), Trim(e)) == Chars(T.trim(t.filename));
    } else {
      EmptyText(T, map[], t, f);
    }
  }

  /** The verdict of the two terms from the absence flags and the value cells. */
  function TwoTerms(am: bool, bm: bool, ca: Cell, cb: Cell, flip: bool): int {
    if am != bm then (if am then 1 else -1) else if flip then -CompareKeys(ca, cb) else CompareKeys(ca, cb)
  }

  lemma SqlStepIs(T: Text, f: Field, first: Field, desc: bool, a: Track, b: Track, am: bool, bm: bool)
    requires TermCell(T, a, ByPred(EmptySql(OrderExpr(f), f, FieldSql(f).1))) == Int(Bit(am))
    requires TermCell(T, b, ByPred(EmptySql(OrderExpr(f), f, FieldSql(f).1))) == Int(Bit(bm))
    ensures var e := if FieldSql(f).1 then OrderExpr(f) else FoldSql(OrderExpr(f));
            SqlStep(T, f, first, desc, a, b) ==
                TwoTerms(am, bm, EvalExpr(T, RowOf(T, a), e), EvalExpr(T, RowOf(T, b), e), f == first && desc)
  {
  }

  /** Two columns that are not different integers with one float64. */
  predicate CellsApart(T: Text, ca: Cell, cb: Cell) {
    ca.Int? && cb.Int? && ca.n != cb.n ==> T.float(ca.n) != T.float(cb.n)
  }

  predicate FloatsApart(T: Text, f: Field, a: Track, b: Track) { CellsApart(T, TrackCell(a, f), TrackCell(b, f)) }

  lemma FloatSigns(T: Text, m: int, n: int)
    requires FloatLaws(T)
    ensures Sign(m as real, n as real) == Sign(T.float(m), T.float(n)) <==> (m != n ==> T.float(m) != T.float(n))
  {
    assert m <= n ==> T.float(m) <= T.float(n);
    assert n <= m ==> T.float(n) <= T.float(m);
  }

  lemma NumbersCompared(T: Text, x: real, y: real)
    requires T.parse(T.printReal(y)) == Some(y)
    ensures Compare(T, Number(x), Number(y), Eq) <==> x == y
    ensures Compare(T, Number(x), Number(y), Lt) <==> x < y
    ensures Compare(T, Number(x), Number(y), Gt) <==> x > y
  {}

  /** Both numbers are there: memory compares what SQL compares, rounded. */
  lemma NumbersDecide(T: Text, ca: Cell, cb: Cell, x: real, y: real, flip: bool)
    requires FloatLaws(T) && Shows(T, ca, Number(x)) && Shows(T, cb, Number(y)) && (ca.Int? <==> cb.Int?)
    requires T.parse(T.printReal(y)) == Some(y)
    ensures TwoTerms(false, false, ca, cb, flip) == StepOf(T, Number(x), Number(y), false, false, flip) <==>
            CellsApart(T, ca, cb)
  {
    hide FloatLaws, Compare;
    NumbersCompared(T, x, y);
    if ca.Int? { FloatSigns(T, ca.n, cb.n); }
  }

  /** An absent number is NULL or the zero of its column. */
  predicate Absent(c: Cell) { c.Null? || c == Int(0) || c == Real(0.0) }

  lemma AbsentCell(T: Text, c: Cell, v: Value, f: Field)
    requires FloatLaws(T) && Shows(T, c, v)
    ensures Missing(T, v, f) <==> Absent(c) && (f == PlayCount ==> v.Nil?)
  {}

  /** The verdicts on two columns and what they show. */
  lemma NumberVerdicts(T: Text, f: Field, ca: Cell, cb: Cell, av: Value, bv: Value, flip: bool)
    requires FloatLaws(T) && Shows(T, ca, av) && Shows(T, cb, bv)
    requires bv.Number? ==> T.parse(T.printReal(bv.x)) == Some(bv.x)
    requires if f == Bpm then !ca.Int? && !cb.Int? && ca != Real(0.0) && cb != Real(0.0)
             else !ca.Null? && !cb.Null? && (ca.Int? <==> cb.Int?)
    ensures var am, bm := Missing(T, av, f), Missing(T, bv, f);
            TwoTerms(am, bm, ca, cb, flip) == StepOf(T, av, bv, am, bm, flip) <==> CellsApart(T, ca, cb)
  {
    hide FloatLaws, Compare, Missing;
    AbsentCell(T, ca, av, f);
    AbsentCell(T, cb, bv, f);
    if !Missing(T, av, f) && !Missing(T, bv, f) {
      NumbersDecide(T, ca, cb, av.x, bv.x, flip);
    } else if Missing(T, av, f) != Missing(T, bv, f) {
      if ca.Int? && cb.Int? { ZeroApart(T, ca.n, cb.n); }
    }
  }

  /** On a numeric field the two sides decide alike exactly when rounding does not make different integers the same. */
  lemma NumberSteps(T: Text, f: Field, first: Field, desc: bool, a: Track, b: Track)
    requires FloatLaws(T) && PrintsBack(T, b, f) && SortField(f) && FieldSql(f).1
    ensures SqlStep(T, f, first, desc, a, b) == Step(T, f, f == first && desc, a, b) <==> FloatsApart(T, f, a, b)
  {
    hide SqlStep, TermCell, EvalExpr, EmptySql, OrderExpr, FoldSql, FloatLaws, ValueOf, Missing, Compare, KeyOf, BpmOf,
         StepOf, TwoTerms, TrackCell, BpmCell, FieldSql, Shows;
    var av, bv := ValueOf(T, a, f), ValueOf(T, b, f);
    var ca, cb := EvalExpr(T, RowOf(T, a), OrderExpr(f)), EvalExpr(T, RowOf(T, b), OrderExpr(f));
    OrderNumber(T, a, f);
    OrderNumber(T, b, f);
    SqlStepIs(T, f, first, desc, a, b, Missing(T, av, f), Missing(T, bv, f));
    SameKind(T, a, b, f);
    NumberVerdicts(T, f, ca, cb, av, bv, f == first && desc);
  }

  lemma ZeroApart(T: Text, m: int, n: int)
    requires FloatLaws(T) && (m == 0) != (n == 0)
    ensures T.float(m) != T.float(n)
  {}

  /** A numeric column holds one kind of number, and no tempo is zero. */
  lemma SameKind(T: Text, a: Track, b: Track, f: Field)
    requires SortField(f) && FieldSql(f).1
    ensures f != Bpm ==>
            !TrackCell(a, f).Null? && !TrackCell(b, f).Null? && (TrackCell(a, f).Int? <==> TrackCell(b, f).Int?)
    ensures f == Bpm ==> TrackCell(a, f) == TrackCell(b, f) == Null
    ensures f == Bpm ==> BpmCell(T, a) != Real(0.0) && BpmCell(T, b) != Real(0.0)
    ensures f == Bpm ==> !BpmCell(T, a).Int? && !BpmCell(T, b).Int?
  {
    hide BpmOf;
    BpmPositive(T, a);
    BpmPositive(T, b);
  }

  lemma BpmPositive(T: Text, t: Track)
    ensures BpmOf(T, t).Number? ==> BpmOf(T, t).x > 0.0
    ensures BpmOf(T, t).Number? || BpmOf(T, t).Nil?
  {
    FirstPositiveIsPositive(T, TagValues(t, "bpm"));
    FirstPositiveIsPositive(T, TagValues(t, "tbpm"));
    FirstPositiveIsPositive(T, TagValues(t, "tempo"));
  }

  lemma {:induction false} FirstPositiveIsPositive(T: Text, texts: seq<string>)
    ensures FirstPositive(T, texts).Some? ==> FirstPositive(T, texts).value > 0.0
  {
    if texts != [] { FirstPositiveIsPositive(T, texts[1..]); }
  }

  /** On texts, SQL's two terms and sortTracks decide alike unless both are blank and fold apart. */
  lemma TextVerdicts(T: Text, x: string, y: string, flip: bool)
    ensures var am, bm := T.trim(x) == "", T.trim(y) == "";
            TwoTerms(am, bm, Chars(T.lower(x)), Chars(T.lower(y)), flip) == StepOf(T, Str(x), Str(y), am, bm, flip) <==>
            !(am && bm && T.lower(x) != T.lower(y))
  {
    hide CompareText;
  }

  lemma FavoriteVerdicts(T: Text, x: bool, y: bool, flip: bool)
    requires SortLaws(T)
    ensures TwoTerms(false, false, Chars(T.lower(T.printInt(Bit(x)))), Chars(T.lower(T.printInt(Bit(y)))), flip) ==
            StepOf(T, Boolean(x), Boolean(y), false, false, flip)
  {
    hide CompareText;
    TextOrder(T.lower("false"), T.lower("true"), "");
    TextOrder(T.lower(T.printInt(0)), T.lower(T.printInt(1)), "");
  }

  lemma FavoriteSteps(T: Text, first: Field, desc: bool, a: Track, b: Track)
    requires SortLaws(T)
    ensures SqlStep(T, Favorite, first, desc, a, b) == Step(T, Favorite, Favorite == first && desc, a, b)
  {
    hide SqlStep, TermCell, EmptySql, OrderExpr, FoldSql, TwoTerms, StepOf, EvalExpr;
    OrderText(T, a, Favorite);
    OrderText(T, b, Favorite);
    SqlStepIs(T, Favorite, first, desc, a, b, false, false);
    FavoriteVerdicts(T, a.favorite, b.favorite, Favorite == first && desc);
  }

  /** Exactly when a text field is decided alike on both sides. */
  lemma TextSteps(T: Text, f: Field, first: Field, desc: bool, a: Track, b: Track)
    requires SortField(f) && !FieldSql(f).1 && f != Favorite
    ensures SqlStep(T, f, first, desc, a, b) == Step(T, f, f == first && desc, a, b) <==> BlanksAlike(T, f, a, b)
  {
    hide *;
    OrderText(T, a, f);
    OrderText(T, b, f);
    var x, y := ValueOf(T, a, f).s, ValueOf(T, b, f).s;
    TextMissing(T, a, f);
    TextMissing(T, b, f);
    SqlStepIs(T, f, first, desc, a, b, T.trim(x) == "", T.trim(y) == "");
    TextVerdicts(T, x, y, f == first && desc);
    TextStepIs(T, f, f == first && desc, a, b);
  }

  lemma TextMissing(T: Text, t: Track, f: Field)
    requires ValueOf(T, t, f).Str?
    ensures Missing(T, ValueOf(T, t, f), f) == (T.trim(ValueOf(T, t, f).s) == "")
  {
    hide ValueOf;
  }

  lemma TextStepIs(T: Text, f: Field, flip: bool, a: Track, b: Track)
    requires ValueOf(T, a, f).Str? && ValueOf(T, b, f).Str?
    ensures var x, y := ValueOf(T, a, f).s, ValueOf(T, b, f).s;
            && Step(T, f, flip, a, b) == StepOf(T, Str(x), Str(y), T.trim(x) == "", T.trim(y) == "", flip)
            && (BlanksAlike(T, f, a, b) <==> !(T.trim(x) == "" && T.trim(y) == "" && T.lower(x) != T.lower(y)))
  {
    hide ValueOf, StepOf;
  }

  /** The field is decided alike on both sides. */
  predicate Alike(T: Text, f: Field, a: Track, b: Track) {
    if FieldSql(f).1 then FloatsApart(T, f, a, b) else BlanksAlike(T, f, a, b)
  }

  lemma StepsAgree(T: Text, f: Field, first: Field, desc: bool, a: Track, b: Track)
    requires SortLaws(T) && SortField(f) && PrintsBack(T, b, f)
    ensures SqlStep(T, f, first, desc, a, b) == Step(T, f, f == first && desc, a, b) <==> Alike(T, f, a, b)
  {
    hide SqlStep, Step, FieldSql, PrintsBack, FloatsApart;
    if FieldSql(f).1 {
      NumberSteps(T, f, first, desc, a, b);
    } else if f == Favorite {
      FavoriteSteps(T, first, desc, a, b);
    } else {
      TextSteps(T, f, first, desc, a, b);
    }
  }

  lemma {:induction false} WalkAgrees(T: Text, fields: seq<Field>, first: Field, desc: bool, a: Track, b: Track)
    requires SortLaws(T)
    requires forall f | f in fields :: SortField(f) && Alike(T, f, a, b) && PrintsBack(T, b, f)
    ensures var terms := TermsOf(fields, first, desc);
            LessBy(T, fields, first, desc, a, b) <==>
                Lexicographic(SortKeysOf(T, a, terms), SortKeysOf(T, b, terms)) < 0
  {
    hide SqlStep, Step, Alike, PrintsBack, SortLaws, Lexicographic, SortKeysOf, LessBy;
    if fields == [] {
      IdDecides(T, a, b);
      NoFieldsLeft(T, first, desc, a, b);
    } else {
      var f := fields[0];
      StepsAgree(T, f, first, desc, a, b);
      FieldFirst(T, fields, first, desc, a, b);
      WalkAgrees(T, fields[1..], first, desc, a, b);
      LessByStep(T, fields, first, desc, a, b);
    }
  }

  lemma NoFieldsLeft(T: Text, first: Field, desc: bool, a: Track, b: Track)
    ensures LessBy(T, [], first, desc, a, b) <==> CompareText(a.id, b.id) < 0
  {}

  lemma LessByStep(T: Text, fields: seq<Field>, first: Field, desc: bool, a: Track, b: Track)
    requires fields != []
    ensures var s := Step(T, fields[0], fields[0] == first && desc, a, b);
            LessBy(T, fields, first, desc, a, b) <==> s < 0 || (s == 0 && LessBy(T, fields[1..], first, desc, a, b))
  {
  }

  lemma AllSortable(first: Field)
    requires SortField(first)
    ensures forall f | f in SortFields(first) :: SortField(f)
  {
    hide Unrepeated;
    assert forall f | f in SortFields(first) :: f in FieldList(first);
  }

  /** The SQL order is the in-memory order, ascending or descending, missing values last in both. */
  lemma OrdersAgree(T: Text, field: Option<Field>, desc: bool, a: Track, b: Track)
    requires SortLaws(T) && SortField(FirstField(field))
    requires forall f | f in SortFields(FirstField(field)) :: Alike(T, f, a, b) && PrintsBack(T, b, f)
    ensures Less(T, field, desc, a, b) <==> Before(T, field, desc, a, b)
  {
    hide Alike, PrintsBack, LessBy, TermsOf, Lexicographic, SortKeysOf, SortFields, SortLaws;
    AllSortable(FirstField(field));
    WalkAgrees(T, SortFields(FirstField(field)), FirstField(field), desc, a, b);
  }

  /** The requested field is not among the tie-breakers left, so the direction does not reach them. */
  lemma {:induction false} DirectionOnlyFirst(T: Text, fields: seq<Field>, first: Field, a: Track, b: Track)
    requires first !in fields
    ensures LessBy(T, fields, first, true, a, b) == LessBy(T, fields, first, false, a, b)
  {
    hide ValueOf, Missing, Compare;
    if fields != [] {
      DirectionOnlyFirst(T, fields[1..], first, a, b);
      LessByStep(T, fields, first, true, a, b);
      LessByStep(T, fields, first, false, a, b);
    }
  }

  lemma {:induction false} UnrepeatedAvoids(fields: seq<Field>, seen: set<Field>)
    ensures forall f | f in Unrepeated(fields, seen) :: f !in seen
  {
    if fields != [] {
      UnrepeatedAvoids(fields[1..], seen);
      UnrepeatedAvoids(fields[1..], seen + {fields[0]});
    }
  }

  lemma RequestedFirst(first: Field)
    ensures SortFields(first) != [] && SortFields(first)[0] == first && first !in SortFields(first)[1..]
  {
    var all := FieldList(first);
    assert Unrepeated(all, {}) == [first] + Unrepeated(all[1..], {} + {first});
    UnrepeatedAvoids(all[1..], {} + {first});
  }

  /** Two blank texts that fold apart leave memory undecided, and SQL decided by the direction. */
  lemma BlankVerdict(T: Text, f: Field, desc: bool, a: Track, b: Track)
    requires SortField(f) && !BlanksAlike(T, f, a, b)
    ensures Step(T, f, desc, a, b) == 0
    ensures var c := CompareText(T.lower(ValueOf(T, a, f).s), T.lower(ValueOf(T, b, f).s));
            c != 0 && SqlStep(T, f, f, desc, a, b) == if desc then -c else c
  {
    hide SqlStep, TermCell, EvalExpr, EmptySql, OrderExpr, FoldSql, ValueOf, StepOf, CompareText;
    TextField(T, f, a);
    OrderText(T, a, f);
    OrderText(T, b, f);
    TextMissing(T, a, f);
    TextMissing(T, b, f);
    SqlStepIs(T, f, f, desc, a, b, true, true);
    TextStepIs(T, f, desc, a, b);
    BlankStep(T, ValueOf(T, a, f), ValueOf(T, b, f), desc);
  }

  lemma BlankStep(T: Text, av: Value, bv: Value, flip: bool)
    ensures StepOf(T, av, bv, true, true, flip) == 0
  {}

  lemma TextField(T: Text, f: Field, t: Track)
    requires SortField(f) && ValueOf(T, t, f).Str?
    ensures !FieldSql(f).1 && f != Favorite
  {}

  /** Two different integers with one float64 leave memory undecided, and SQL decided by the direction. */
  lemma RoundedVerdictOf(T: Text, f: Field, desc: bool, a: Track, b: Track)
    requires FloatLaws(T) && SortField(f) && FieldSql(f).1 && !FloatsApart(T, f, a, b)
    ensures Step(T, f, desc, a, b) == 0
    ensures var c := Sign(TrackCell(a, f).n as real, TrackCell(b, f).n as real);
            c != 0 && SqlStep(T, f, f, desc, a, b) == if desc then -c else c
  {
    hide SqlStep, TermCell, EvalExpr, EmptySql, OrderExpr, FoldSql, FloatLaws, ValueOf, Missing, Compare, KeyOf, BpmOf;
    var av, bv := ValueOf(T, a, f), ValueOf(T, b, f);
    SameKind(T, a, b, f);
    OrderNumber(T, a, f);
    OrderNumber(T, b, f);
    SqlStepIs(T, f, f, desc, a, b, Missing(T, av, f), Missing(T, bv, f));
  }

  /** What is not alike leaves memory undecided, and SQL decided by the direction. */
  lemma UnlikeVerdict(T: Text, f: Field, a: Track, b: Track)
    requires FloatLaws(T) && SortField(f) && !Alike(T, f, a, b)
    ensures Step(T, f, true, a, b) == 0 && Step(T, f, false, a, b) == 0
    ensures SqlStep(T, f, f, true, a, b) == -SqlStep(T, f, f, false, a, b) != 0
  {
    hide SqlStep, Step, FloatsApart, BlanksAlike, FieldSql, FloatLaws, SortField, TrackCell, CompareText;
    if FieldSql(f).1 {
      RoundedVerdictOf(T, f, true, a, b);
      RoundedVerdictOf(T, f, false, a, b);
    } else {
      BlankVerdict(T, f, true, a, b);
      BlankVerdict(T, f, false, a, b);
    }
  }

  /** Such a field, sorted by, is ordered differently in one of the two directions. */
  lemma UnlikePart(T: Text, f: Field, a: Track, b: Track)
    requires FloatLaws(T) && SortField(f) && !Alike(T, f, a, b)
    ensures exists desc :: Less(T, Some(f), desc, a, b) != Before(T, Some(f), desc, a, b)
  {
    hide SqlStep, Step, LessBy, Alike, SortFields, Lexicographic, SortKeysOf, TermsOf, SortField, FloatLaws;
    RequestedFirst(f);
    UnlikeVerdict(T, f, a, b);
    var fields := SortFields(f);
    forall desc ensures Less(T, Some(f), desc, a, b) == LessBy(T, fields[1..], f, desc, a, b)
      ensures Before(T, Some(f), desc, a, b) == (SqlStep(T, f, f, desc, a, b) < 0)
    {
      LessByStep(T, fields, f, desc, a, b);
      FieldFirst(T, fields, f, desc, a, b);
    }
    DirectionOnlyFirst(T, fields[1..], f, a, b);
    assert Less(T, Some(f), true, a, b) == Less(T, Some(f), false, a, b);
    assert Before(T, Some(f), true, a, b) != Before(T, Some(f), false, a, b);
  }

  /**
   The two orders agree on a pair of tracks, whatever is sorted by, exactly when its blank texts
   fold alike and none of its different integers have one float64.
   */
  lemma OrdersAgreeExactly(T: Text, a: Track, b: Track)
    requires SortLaws(T) && forall f | SortField(f) :: PrintsBack(T, b, f)
    ensures (forall f, desc | SortField(f) :: Less(T, Some(f), desc, a, b) <==> Before(T, Some(f), desc, a, b)) <==>
            (forall f | SortField(f) :: Alike(T, f, a, b))
  {
    hide Less, Before, Alike, PrintsBack, FloatLaws;
    if forall f | SortField(f) :: Alike(T, f, a, b) {
      forall f, desc | SortField(f) ensures Less(T, Some(f), desc, a, b) <==> Before(T, Some(f), desc, a, b) {
        AllSortable(f);
        OrdersAgree(T, Some(f), desc, a, b);
      }
    } else {
      var f :| SortField(f) && !Alike(T, f, a, b);
      UnlikePart(T, f, a, b);
    }
  }

  /** The track numbers 2^53 and 2^53 + 1 have one float64, so SQL tells them apart and memory does not. */
  lemma LargeNumbersDiffer(T: Text)
    requires FloatLaws(T) && T.float(9007199254740993) == T.float(9007199254740992)
    ensures var a, b := TrackNumbered(9007199254740993), TrackNumbered(9007199254740992);
            exists desc :: Less(T, Some(TrackNumber), desc, a, b) != Before(T, Some(TrackNumber), desc, a, b)
  {
    hide FloatLaws, Less, Before;
    UnlikePart(T, TrackNumber, TrackNumbered(9007199254740993), TrackNumbered(9007199254740992));
  }

  /******* Names that are no columns *******/

  /** A tag, or any other name, is NULL to SQL: its two terms decide nothing. */
  lemma NoColumnStep(T: Text, f: Field, first: Field, desc: bool, a: Track, b: Track)
    requires !SortField(f)
    ensures SqlStep(T, f, first, desc, a, b) == 0
  {
    hide CompareText, SearchRowOf;
    NoColumnCells(T, f, a);
    NoColumnCells(T, f, b);
    SqlStepIs(T, f, first, desc, a, b, true, true);
  }

  lemma NoColumnCells(T: Text, f: Field, t: Track)
    requires !SortField(f)
    ensures TermCell(T, t, ByPred(EmptySql(OrderExpr(f), f, FieldSql(f).1))) == Int(Bit(true)) && !FieldSql(f).1
    ensures EvalExpr(T, RowOf(T, t), FoldSql(OrderExpr(f))) == Chars(T.lower(""))
  {
    hide SearchRowOf, CompareTruth;
    BlankTruth("");
    assert EvalExpr(T, RowOf(T, t), Trim(NullExpr)) == Chars("");
  }

  /** In memory its texts decide; the direction turns that round unless one of them is absent. */
  lemma NoColumnMemory(T: Text, f: Field, a: Track, b: Track)
    requires !SortField(f)
    ensures var am, bm := Missing(T, ValueOf(T, a, f), f), Missing(T, ValueOf(T, b, f), f);
            Step(T, f, true, a, b) == if am == bm then -Step(T, f, false, a, b) else Step(T, f, false, a, b)
  {
    hide CompareText, Join, TagValues;
  }

  lemma NoColumnOrders(T: Text, f: Field, desc: bool, a: Track, b: Track)
    requires SortLaws(T) && !SortField(f)
    requires forall g | g in SortFields(f)[1..] :: Alike(T, g, a, b) && PrintsBack(T, b, g)
    ensures var s, rest := Step(T, f, desc, a, b), LessBy(T, SortFields(f)[1..], f, false, a, b);
            Less(T, Some(f), desc, a, b) == (s < 0 || (s == 0 && rest)) && Before(T, Some(f), desc, a, b) == rest
  {
    hide SqlStep, Step, LessBy, Alike, PrintsBack, SortFields, Lexicographic, SortKeysOf, TermsOf, SortLaws;
    RequestedFirst(f);
    var fields := SortFields(f);
    RestSortable(f);
    NoColumnStep(T, f, f, desc, a, b);
    LessByStep(T, fields, f, desc, a, b);
    FieldFirst(T, fields, f, desc, a, b);
    WalkAgrees(T, fields[1..], f, desc, a, b);
    DirectionOnlyFirst(T, fields[1..], f, a, b);
  }

  lemma RestSortable(first: Field)
    ensures forall f | f in SortFields(first)[1..] :: SortField(f)
  {
    hide Unrepeated;
    RequestedFirst(first);
    assert forall f | f in SortFields(first)[1..] :: f in FieldList(first) && f != first;
  }

  /**
   Sorting by such a name agrees in both directions exactly when memory does not tell the texts
   apart, or tells an absent one apart as the tie-breakers do anyway.
   */
  lemma NoColumnAgreesExactly(T: Text, f: Field, a: Track, b: Track)
    requires SortLaws(T) && !SortField(f)
    requires forall g | g in SortFields(f)[1..] :: Alike(T, g, a, b) && PrintsBack(T, b, g)
    ensures var am, bm := Missing(T, ValueOf(T, a, f), f), Missing(T, ValueOf(T, b, f), f);
            var s, rest := Step(T, f, false, a, b), LessBy(T, SortFields(f)[1..], f, false, a, b);
            (forall desc :: Less(T, Some(f), desc, a, b) <==> Before(T, Some(f), desc, a, b)) <==>
            s == 0 || (am != bm && (s < 0) == rest)
  {
    hide Less, Before, Step, LessBy, Alike, PrintsBack, SortFields, SortLaws, SortField, Missing, ValueOf;
    NoColumnOrders(T, f, true, a, b);
    NoColumnOrders(T, f, false, a, b);
    NoColumnMemory(T, f, a, b);
    assert (forall desc :: Less(T, Some(f), desc, a, b) <==> Before(T, Some(f), desc, a, b)) <==>
           (Less(T, Some(f), true, a, b) == Before(T, Some(f), true, a, b)
            && Less(T, Some(f), false, a, b) == Before(T, Some(f), false, a, b));
  }

  /** Titles " " and "" are both absent, so in memory the ID decides, but SQL compares them. */
  lemma BlankTitlesDiffer(T: Text)
    requires T.trim("") == "" && T.trim(" ") == "" && T.lower("") == "" && T.lower(" ") == " " && T.float(0) == 0.0
    ensures var a, b := TrackTitled("2", ""), TrackTitled("1", " ");
            Less(T, Some(Title), false, b, a) && Before(T, Some(Title), false, a, b)
  {
    hide SqlStep, Lexicographic, SortKeysOf, TermsOf, LessBy, Missing, BlanksAlike, SortFields;
    var a, b := TrackTitled("2", ""), TrackTitled("1", " ");
    var fields := SortFields(Title);
    TitlesBlank(T);
    RequestedFirst(Title);
    BlankVerdict(T, Title, false, a, b);
    FieldFirst(T, fields, Title, false, a, b);
    IdsDecide(T, fields, b, a);
  }

  lemma TitlesBlank(T: Text)
    requires T.trim("") == "" && T.trim(" ") == "" && T.lower("") == "" && T.lower(" ") == " " && T.float(0) == 0.0
    ensures var a, b := TrackTitled("2", ""), TrackTitled("1", " ");
            && !BlanksAlike(T, Title, a, b) && ValueOf(T, a, Title) == Str("") && ValueOf(T, b, Title) == Str(" ")
            && (forall f | f in SortFields(Title) :: Missing(T, ValueOf(T, a, f), f) && Missing(T, ValueOf(T, b, f), f))
    ensures CompareText("", " ") < 0 && CompareText("1", "2") < 0
  {
    hide SortFields, CompareText, BpmOf, KeyOf;
    TitleFields();
    BlankFields(T, "2", "");
    BlankFields(T, "1", " ");
    BlankComparisons();
  }

  lemma TitleFields()
    ensures forall f | f in SortFields(Title) :: f in {Title, Artist, Album, Disc, TrackNumber}
  {
    hide Unrepeated;
    assert forall f | f in FieldList(Title) :: f in {Title, Artist, Album, Disc, TrackNumber};
  }

  lemma BlankFields(T: Text, id: string, title: string)
    requires T.trim("") == "" && T.trim(title) == "" && T.float(0) == 0.0
    ensures forall f | f in {Title, Artist, Album, Disc, TrackNumber} ::
            Missing(T, ValueOf(T, TrackTitled(id, title), f), f)
  {
    hide BpmOf, KeyOf;
  }

  lemma BlankComparisons()
    ensures CompareText("", " ") < 0 && CompareText("1", "2") < 0
  {
    assert "1"[0] < "2"[0];
  }

  /** Nothing but the id tells apart two tracks that have none of the fields. */
  lemma {:induction false} IdsDecide(T: Text, fields: seq<Field>, a: Track, b: Track)
    requires forall f | f in fields :: Missing(T, ValueOf(T, a, f), f) && Missing(T, ValueOf(T, b, f), f)
    ensures LessBy(T, fields, Title, false, a, b) <==> CompareText(a.id, b.id) < 0
  {
    hide ValueOf, Missing, Compare, CompareText;
    if fields != [] { IdsDecide(T, fields[1..], a, b); }
  }

  function TrackTitled(id: string, title: string): Track {
    Track(id, title, "", "", "", "", "", "", "", false, 0, 0.0, 0, 0, 0, 0, 0, 0, 0, 0, 0, map[])
  }

  /******* The whole result, and its pages *******/

  ghost predicate UniqueIds(ts: seq<Track>) { forall i, j | 0 <= i < j < |ts| :: ts[i].id != ts[j].id }

  ghost predicate SortedInMemory(T: Text, field: Option<Field>, desc: bool, ts: seq<Track>) {
    forall i, j | 0 <= i < j < |ts| :: !Less(T, field, desc, ts[j], ts[i])
  }

  ghost predicate SortedBySql(T: Text, field: Option<Field>, desc: bool, ts: seq<Track>) {
    forall i, j | 0 <= i < j < |ts| :: !Before(T, field, desc, ts[j], ts[i])
  }

  ghost predicate SortableTogether(T: Text, field: Option<Field>, ts: seq<Track>) {
    && (forall a, b, f | a in ts && b in ts && f in SortFields(FirstField(field)) :: Alike(T, f, a, b))
    && (forall b, f | b in ts && f in SortFields(FirstField(field)) :: PrintsBack(T, b, f))
  }

  /** Both sequences start with the same track. */
  lemma SameFirst(T: Text, field: Option<Field>, desc: bool, xs: seq<Track>, ys: seq<Track>)
    requires SortLaws(T) && SortField(FirstField(field)) && xs != [] && ys != []
    requires multiset(xs) == multiset(ys) && UniqueIds(xs) && SortableTogether(T, field, xs)
    requires SortedInMemory(T, field, desc, xs) && SortedBySql(T, field, desc, ys)
    ensures xs[0] == ys[0]
  {
    hide Less, Before, Alike, PrintsBack, SortLaws, SortFields;
    var x, y := xs[0], ys[0];
    assert x in multiset(ys) && y in multiset(xs);
    var i :| 0 <= i < |ys| && ys[i] == x;
    var j :| 0 <= j < |xs| && xs[j] == y;
    if j > 0 {
      assert i > 0;
      OrdersAgree(T, field, desc, y, x);
      BeforeIsStrictTotal(T, field, desc, x, y, x);
    }
  }

  /** Any in-memory sort and any SQL ordering of the same tracks give the same sequence. */
  lemma {:induction false} SameSequence(T: Text, field: Option<Field>, desc: bool, xs: seq<Track>, ys: seq<Track>)
    requires SortLaws(T) && SortField(FirstField(field))
    requires multiset(xs) == multiset(ys) && UniqueIds(xs) && SortableTogether(T, field, xs)
    requires SortedInMemory(T, field, desc, xs) && SortedBySql(T, field, desc, ys)
    ensures xs == ys
  {
    hide Less, Before, Alike, PrintsBack;
    SameLength(xs, ys);
    if xs != [] {
      SameFirst(T, field, desc, xs, ys);
      SameRest(xs, ys);
      SameSequence(T, field, desc, xs[1..], ys[1..]);
    }
  }

  lemma SameLength(xs: seq<Track>, ys: seq<Track>)
    requires multiset(xs) == multiset(ys)
    ensures |xs| == |ys|
  {
    assert |xs| == |multiset(xs)| == |multiset(ys)| == |ys|;
  }

  lemma SameRest(xs: seq<Track>, ys: seq<Track>)
    requires multiset(xs) == multiset(ys) && xs != [] && ys != [] && xs[0] == ys[0]
    ensures multiset(xs[1..]) == multiset(ys[1..])
    ensures forall a | a in xs[1..] :: a in xs
  {
    assert xs == [xs[0]] + xs[1..] && ys == [ys[0]] + ys[1..];
    assert multiset(xs[1..]) == multiset(xs) - multiset{xs[0]} == multiset(ys[1..]);
  }

  /** LIMIT n OFFSET k. */
  function Limit(rows: seq<Track>, n: nat, offset: nat): seq<Track> {
    var from := if offset < |rows| then offset else |rows|;
    rows[from..if n < |rows| - from then from + n else |rows|]
  }

  function PageSizeOf(requested: int): nat { if requested == 25 || requested == 100 then requested else 50 }

  datatype Page = Page(items: seq<Track>, total: nat, page: nat, pageSize: nat)

  /** The paging arithmetic of QueryTrackPage on the ordered result; the offset never passes the total. */
  method QueryTrackPage(rows: seq<Track>, page: int, pageSize: int) returns (r: Page, ghost offset: nat)
    ensures r.total == |rows| && r.page == if page < 1 then 1 else page
    ensures r.pageSize == if pageSize == 25 || pageSize == 100 then pageSize else 50
    ensures r.items == PageOf(rows, r.page, r.pageSize)
    ensures var from := (r.page - 1) * r.pageSize;
            && |r.items| == (if from >= |rows| then 0 else if |rows| - from < r.pageSize then |rows| - from
               else r.pageSize)
            && forall i | 0 <= i < |r.items| :: r.items[i] == rows[from + i]
    ensures offset <= |rows|
  {
    var number := if page < 1 then 1 else page;
    var size := PageSizeOf(pageSize);
    var skip := |rows|;
    var q := |rows| / size;
    if number <= q + 1 {
      skip := (number - 1) * size;
      assert (number - 1) * size <= q * size <= |rows|;
    } else {
      assert (number - 1) * size >= (q + 1) * size > |rows|;
    }
    offset := skip;
    r := Page(Limit(rows, size, skip), |rows|, number, size);
  }

  /** Page `p` (from 1) of size `n`: the rows numbered from (p - 1) * n. */
  function PageOf(rows: seq<Track>, p: nat, n: nat): seq<Track>
    requires p > 0
  {
    Limit(rows, n, (p - 1) * n)
  }

  function JoinPages(rows: seq<Track>, count: nat, n: nat): seq<Track> {
    if count == 0 then [] else JoinPages(rows, count - 1, n) + PageOf(rows, count, n)
  }

  /** The first `count` pages join up to the first `count * n` rows; a page is empty exactly past the end. */
  lemma {:induction false} PagesJoin(rows: seq<Track>, count: nat, n: nat)
    requires n > 0
    ensures JoinPages(rows, count, n) == rows[..if count * n < |rows| then count * n else |rows|]
    ensures count * n >= |rows| ==> JoinPages(rows, count, n) == rows
    ensures PageOf(rows, count + 1, n) == [] <==> count * n >= |rows|
  {
    if count > 0 {
      PagesJoin(rows, count - 1, n);
      assert count * n == (count - 1) * n + n;
    }
  }
}
