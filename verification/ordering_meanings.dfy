/**
 What the track order is (internal/app/model.go, internal/app/store_query.go), read off the
 tracks: which field decides between two of them, and how.
 */
module OrderingMeanings {
  import opened Wrappers
  import opened Library
  import opened RuleAgreement
  import opened RuleMeanings
  import opened Ordering

  /** Numbers by size, texts folded and by code point. */
  ghost predicate ValueBefore(T: Text, x: Value, y: Value) {
    match x
    case Number(n) => y.Number? && n < y.x
    case Str(s) => y.Str? && TextBefore(T.lower(s), T.lower(y.s))
    case Boolean(b) => y.Boolean? && TextBefore(T.lower(if b then "true" else "false"),
                                          T.lower(if y.b then "true" else "false"))
    case _ => false
  }

  /** No such value: nothing, a blank text, or a zero that is no number of plays. */
  ghost predicate Lacks(T: Text, t: Track, f: Field) {
    match ValueOf(T, t, f)
    case Nil => true
    case Str(s) => T.trim(s) == ""
    case Number(x) => x == 0.0 && f != PlayCount
    case _ => false
  }

  /** On this field a comes first: b lacks it, or a's value is the smaller, or the greater in descending order. */
  ghost predicate ComesFirst(T: Text, f: Field, descending: bool, a: Track, b: Track) {
    var x, y := ValueOf(T, a, f), ValueOf(T, b, f);
    !Lacks(T, a, f) && (Lacks(T, b, f) || if descending then ValueBefore(T, y, x) else ValueBefore(T, x, y))
  }

  ghost predicate Ties(T: Text, f: Field, a: Track, b: Track) {
    var x, y := ValueOf(T, a, f), ValueOf(T, b, f);
    if Lacks(T, a, f) then Lacks(T, b, f)
    else !Lacks(T, b, f) && !ValueBefore(T, x, y) && !ValueBefore(T, y, x)
  }

  lemma SameSort(T: Text, a: Track, b: Track, f: Field)
    ensures var x, y := ValueOf(T, a, f), ValueOf(T, b, f);
            !x.Composite? && (x.Str? <==> y.Str?) && (x.Boolean? <==> y.Boolean?) && (x.Number? ==> y.Number? || y.Nil?)
            && (y.Number? ==> x.Number? || x.Nil?)
  {
    hide KeyOf;
  }

  lemma TextStep(T: Text, x: Value, y: Value, flip: bool)
    requires (x.Str? && y.Str?) || (x.Boolean? && y.Boolean?)
    ensures var s := StepOf(T, x, y, false, false, flip);
            && (s < 0 <==> if flip then ValueBefore(T, y, x) else ValueBefore(T, x, y))
            && (s == 0 <==> !ValueBefore(T, x, y) && !ValueBefore(T, y, x))
  {
    var a, b := T.lower(Print(T, x)), T.lower(Print(T, y));
    hide TextBefore, CompareText;
    RuleMeanings.TextOrder(a, b);
    RuleMeanings.TextOrder(b, a);
    TextOrderTurned(a, b);
  }

  lemma NumberStep(T: Text, x: real, y: real, flip: bool)
    requires T.parse(T.printReal(y)) == Some(y)
    ensures var s := StepOf(T, Number(x), Number(y), false, false, flip);
            (s < 0 <==> if flip then y < x else x < y) && (s == 0 <==> x == y)
  {
    NumbersCompared(T, x, y);
    hide Compare;
  }

  lemma StepMeans(T: Text, f: Field, flip: bool, a: Track, b: Track)
    requires PrintsBack(T, b, f)
    ensures Step(T, f, flip, a, b) < 0 <==> ComesFirst(T, f, flip, a, b)
    ensures Step(T, f, flip, a, b) == 0 <==> Ties(T, f, a, b)
  {
    hide ValueOf, Compare, TextBefore;
    var x, y := ValueOf(T, a, f), ValueOf(T, b, f);
    SameSort(T, a, b, f);
    if !Lacks(T, a, f) && !Lacks(T, b, f) {
      if x.Number? { NumberStep(T, x.x, y.x, flip); } else { TextStep(T, x, y, flip); }
    }
  }

  /** The tracks tie on the first k fields, and the k-th decides; the id does when there are no more. */
  ghost predicate DecidedAt(T: Text, fields: seq<Field>, first: Field, desc: bool, a: Track, b: Track, k: nat) {
    && k <= |fields|
    && (forall j | 0 <= j < k :: Ties(T, fields[j], a, b))
    && if k < |fields| then ComesFirst(T, fields[k], fields[k] == first && desc, a, b) else TextBefore(a.id, b.id)
  }

  lemma DecidedLater(T: Text, fields: seq<Field>, first: Field, desc: bool, a: Track, b: Track, k: nat)
    requires fields != []
    ensures DecidedAt(T, fields, first, desc, a, b, k + 1) <==>
            Ties(T, fields[0], a, b) && DecidedAt(T, fields[1..], first, desc, a, b, k)
  {
    hide Ties, ComesFirst, TextBefore;
    var rest := fields[1..];
    if DecidedAt(T, fields, first, desc, a, b, k + 1) {
      forall j | 0 <= j < k ensures Ties(T, rest[j], a, b) { assert rest[j] == fields[j + 1]; }
    }
    if Ties(T, fields[0], a, b) && DecidedAt(T, rest, first, desc, a, b, k) {
      forall j | 0 <= j < k + 1 ensures Ties(T, fields[j], a, b) { if j > 0 { assert fields[j] == rest[j - 1]; } }
    }
  }

  ghost predicate Decided(T: Text, fields: seq<Field>, first: Field, desc: bool, a: Track, b: Track) {
    exists k: nat :: DecidedAt(T, fields, first, desc, a, b, k)
  }

  lemma DecidedNext(T: Text, fields: seq<Field>, first: Field, desc: bool, a: Track, b: Track)
    requires fields != []
    ensures Decided(T, fields, first, desc, a, b) <==>
            ComesFirst(T, fields[0], fields[0] == first && desc, a, b)
                || (Ties(T, fields[0], a, b) && Decided(T, fields[1..], first, desc, a, b))
  {
    hide Ties, ComesFirst, TextBefore;
    if k: nat :| DecidedAt(T, fields, first, desc, a, b, k) {
      if k > 0 { DecidedLater(T, fields, first, desc, a, b, k - 1); }
    }
    if ComesFirst(T, fields[0], fields[0] == first && desc, a, b) {
      assert DecidedAt(T, fields, first, desc, a, b, 0);
    }
    if Ties(T, fields[0], a, b) && Decided(T, fields[1..], first, desc, a, b) {
      var k: nat :| DecidedAt(T, fields[1..], first, desc, a, b, k);
      DecidedLater(T, fields, first, desc, a, b, k);
    }
  }

  lemma TiesOrComesFirst(T: Text, f: Field, flip: bool, a: Track, b: Track)
    ensures !(Ties(T, f, a, b) && ComesFirst(T, f, flip, a, b))
  {
    hide ValueOf, ValueBefore;
  }

  lemma {:induction false} WalkMeans(T: Text, fields: seq<Field>, seen: set<Field>, first: Field, desc: bool, a: Track,
          b: Track)
    requires forall f | f in fields :: PrintsBack(T, b, f)
    requires forall f | f in seen :: Ties(T, f, a, b)
    ensures LessBy(T, Unrepeated(fields, seen), first, desc, a, b) <==> Decided(T, fields, first, desc, a, b)
  {
    hide PrintsBack, Ties, ComesFirst, TextBefore, Decided, LessBy, Step, CompareText;
    if fields == [] {
      NoFieldsLeft(T, first, desc, a, b);
      RuleMeanings.TextOrder(a.id, b.id);
      IdDecided(T, first, desc, a, b);
    } else {
      var f, rest := fields[0], fields[1..];
      DecidedNext(T, fields, first, desc, a, b);
      TiesOrComesFirst(T, f, f == first && desc, a, b);
      if f in seen {
        WalkMeans(T, rest, seen, first, desc, a, b);
      } else {
        var left := Unrepeated(rest, seen + {f});
        assert Unrepeated(fields, seen) == [f] + left && ([f] + left)[1..] == left;
        StepMeans(T, f, f == first && desc, a, b);
        LessByStep(T, [f] + left, first, desc, a, b);
        if Ties(T, f, a, b) { WalkMeans(T, rest, seen + {f}, first, desc, a, b); }
      }
    }
  }

  lemma IdDecided(T: Text, first: Field, desc: bool, a: Track, b: Track)
    ensures Decided(T, [], first, desc, a, b) <==> TextBefore(a.id, b.id)
  {
    hide TextBefore;
    assert TextBefore(a.id, b.id) <==> DecidedAt(T, [], first, desc, a, b, 0);
  }

  /**
   The order of two tracks: the first of the requested field (when it was added, without one),
   artist, album, disc, number and title on which they do not tie decides, then the id. Only
   the requested field is turned round, and a track that lacks a field comes last on it.
   */
  lemma MemoryOrderMeans(T: Text, field: Option<Field>, desc: bool, a: Track, b: Track)
    requires var first := if field.None? then AddedAt else field.value;
             forall f | f in [first, Artist, Album, Disc, TrackNumber, Title] :: PrintsBack(T, b, f)
    ensures var first := if field.None? then AddedAt else field.value;
            Less(T, field, desc, a, b) <==>
                Decided(T, [first, Artist, Album, Disc, TrackNumber, Title], first, desc, a, b)
  {
    hide PrintsBack, Decided, LessBy, Unrepeated;
    WalkMeans(T, FieldList(FirstField(field)), {}, FirstField(field), desc, a, b);
  }

  /** So is the order of the database, for tracks whose fields both sides tell apart alike. */
  lemma SqlOrderMeans(T: Text, field: Option<Field>, desc: bool, a: Track, b: Track)
    requires var first := if field.None? then AddedAt else field.value;
             SortLaws(T) && SortField(first)
             && forall f | f in [first, Artist, Album, Disc, TrackNumber, Title] ::
               PrintsBack(T, b, f) && Alike(T, f, a, b)
    ensures var first := if field.None? then AddedAt else field.value;
            Before(T, field, desc, a, b) <==>
                Decided(T, [first, Artist, Album, Disc, TrackNumber, Title], first, desc, a, b)
  {
    hide PrintsBack, Alike, Decided, Less, Before, SortLaws, Unrepeated;
    assert forall f | f in SortFields(FirstField(field)) :: f in FieldList(FirstField(field));
    MemoryOrderMeans(T, field, desc, a, b);
    OrdersAgree(T, field, desc, a, b);
  }
}
