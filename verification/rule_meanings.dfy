/**
 What smart-playlist rules select (internal/app/model.go, internal/app/store_query.go): every
 kind of condition read off the track's own fields and tags, of the in-memory rule and of the
 compiled one, and the rules that are accepted.
 */
module RuleMeanings {
  import opened Library
  import opened RuleQuery
  import opened RuleAgreement

  /** The answer of a compiled condition, never unknown. */
  ghost predicate Selects(T: Text, index: TagIndex, t: Track, f: Field, op: Op, v: Value, selected: bool) {
    && (Match(T, Cond(f, op, v), t) <==> selected)
    && Answer(T, index, t, CompileCond(T, f, op, v)) == if selected then Yes else No
  }

  /******* Tags *******/

  lemma TagSelects(T: Text, search: map<string, SearchRow>, index: TagIndex, t: Track, name: string, op: Op, v: Value)
    requires Projected(T, search, index, t)
    ensures Selects(T, index, t, Tag(name), op, v, MatchTag(T, TagValues(t, name), op, v))
  {
    hide MatchTag, CompileTag;
    TagAgrees(T, search, index, t, name, op, v);
  }

  /** contains and eq want one value of the tag, notContains and ne want none. */
  lemma TagConditionSelects(T: Text, search: map<string, SearchRow>, index: TagIndex, t: Track, name: string, v: Value)
    requires Projected(T, search, index, t)
    ensures var values, sought := if name in t.tags then t.tags[name] else [], T.lower(Print(T, v));
            && Selects(T, index, t, Tag(name), Contains, v,
                       exists i | 0 <= i < |values| :: Includes(T.lower(values[i]), sought))
            && Selects(T, index, t, Tag(name), NotContains, v,
                       forall i | 0 <= i < |values| :: !Includes(T.lower(values[i]), sought))
            && Selects(T, index, t, Tag(name), Eq, v, exists i | 0 <= i < |values| :: T.lower(values[i]) == sought)
            && Selects(T, index, t, Tag(name), Ne, v, forall i | 0 <= i < |values| :: T.lower(values[i]) != sought)
            && Selects(T, index, t, Tag(name), IsEmpty, v, forall i | 0 <= i < |values| :: T.trim(values[i]) == "")
            && Selects(T, index, t, Tag(name), IsNotEmpty, v, exists i | 0 <= i < |values| :: T.trim(values[i]) != "")
  {
    hide Projected, Selects, MatchTag, TagValues;
    TagMatches(T, t, name, v);
    TagSelects(T, search, index, t, name, Contains, v);
    TagSelects(T, search, index, t, name, NotContains, v);
    TagSelects(T, search, index, t, name, Eq, v);
    TagSelects(T, search, index, t, name, Ne, v);
    TagSelects(T, search, index, t, name, IsEmpty, v);
    TagSelects(T, search, index, t, name, IsNotEmpty, v);
  }

  lemma TagMatches(T: Text, t: Track, name: string, v: Value)
    ensures var values, sought := if name in t.tags then t.tags[name] else [], T.lower(Print(T, v));
            var held := TagValues(t, name);
            && MatchTag(T, held, Contains, v) == (exists i | 0 <= i < |values| :: Includes(T.lower(values[i]), sought))
            && MatchTag(T, held, NotContains, v) ==
               (forall i | 0 <= i < |values| :: !Includes(T.lower(values[i]), sought))
            && MatchTag(T, held, Eq, v) == (exists i | 0 <= i < |values| :: T.lower(values[i]) == sought)
            && MatchTag(T, held, Ne, v) == (forall i | 0 <= i < |values| :: T.lower(values[i]) != sought)
            && MatchTag(T, held, IsEmpty, v) == (forall i | 0 <= i < |values| :: T.trim(values[i]) == "")
            && MatchTag(T, held, IsNotEmpty, v) == (exists i | 0 <= i < |values| :: T.trim(values[i]) != "")
  {
    hide Includes, CompareText, Compare, Print;
    forall i | 0 <= i < |TagValues(t, name)| { OneValue(T, TagValues(t, name)[i], v); }
  }

  lemma OneValue(T: Text, text: string, v: Value)
    ensures Compare(T, Str(text), v, Contains) == Includes(T.lower(text), T.lower(Print(T, v)))
    ensures Compare(T, Str(text), v, Eq) == (T.lower(text) == T.lower(Print(T, v)))
  {
    hide Includes;
  }

  /** The orderings want one value of the tag that stands so to the operand, by code point after folding. */
  lemma TagOrderSelects(T: Text, search: map<string, SearchRow>, index: TagIndex, t: Track, name: string, op: Op,
          v: Value)
    requires Projected(T, search, index, t) && (op == Gt || op == Gte || op == Lt || op == Lte)
    ensures var values, sought := if name in t.tags then t.tags[name] else [], T.lower(Print(T, v));
            Selects(T, index, t, Tag(name), op, v,
                    exists i | 0 <= i < |values| :: TextHolds(T.lower(values[i]), op, sought))
  {
    hide Projected, Selects;
    TagSelects(T, search, index, t, name, op, v);
    var values := TagValues(t, name);
    forall i | 0 <= i < |values|
      ensures Compare(T, Str(values[i]), v, op) == TextHolds(T.lower(values[i]), op, T.lower(Print(T, v)))
    {
      TextHoldsIs(T, values[i], v, op);
    }
    hide Compare, TextHolds;
  }

  /******* Texts *******/

  /** At their first difference a is the smaller, or a ends there. */
  ghost predicate DiffersAt(a: string, b: string, k: nat) {
    && k <= |a| && k < |b| && a[..k] == b[..k] && (k == |a| || a[k] < b[k])
  }

  ghost predicate TextBefore(a: string, b: string) { exists k: nat :: DiffersAt(a, b, k) }

  lemma DiffersNext(a: string, b: string, k: nat)
    requires a != "" && b != "" && a[0] == b[0]
    ensures DiffersAt(a[1..], b[1..], k) <==> DiffersAt(a, b, k + 1)
  {
    if k + 1 <= |a| && k + 1 <= |b| {
      assert a[..k + 1] == [a[0]] + a[1..][..k] && b[..k + 1] == [b[0]] + b[1..][..k];
    }
  }

  lemma FirstDiffers(a: string, b: string)
    requires a != "" && b != "" && a[0] != b[0]
    ensures TextBefore(a, b) <==> a[0] < b[0]
  {
    if a[0] < b[0] {
      assert DiffersAt(a, b, 0);
    } else {
      forall k: nat ensures !DiffersAt(a, b, k) {
        if 0 < k <= |a| && k <= |b| { assert a[..k][0] == a[0] && b[..k][0] == b[0]; }
      }
    }
  }

  lemma {:induction false} TextOrder(a: string, b: string)
    ensures CompareText(a, b) < 0 <==> TextBefore(a, b)
    ensures CompareText(a, b) == 0 <==> a == b
  {
    if a != "" && b != "" && a[0] == b[0] {
      TextOrder(a[1..], b[1..]);
      if k: nat :| DiffersAt(a[1..], b[1..], k) { DiffersNext(a, b, k); }
      if k: nat :| DiffersAt(a, b, k) {
        assert k > 0;
        DiffersNext(a, b, k - 1);
      }
    } else if a == "" {
      assert b != "" ==> DiffersAt(a, b, 0);
    } else if b != "" {
      FirstDiffers(a, b);
    }
  }

  /** Swapping the texts turns their comparison round. */
  lemma {:induction false} TextOrderTurned(a: string, b: string)
    ensures CompareText(a, b) == -CompareText(b, a)
  {
    if a != "" && b != "" && a[0] == b[0] { TextOrderTurned(a[1..], b[1..]); }
  }

  ghost predicate TextHolds(a: string, op: Op, b: string) {
    match op
    case Contains => Includes(a, b)
    case NotContains => !Includes(a, b)
    case Eq => a == b
    case Ne => a != b
    case Gt => TextBefore(b, a)
    case Gte => a == b || TextBefore(b, a)
    case Lt => TextBefore(a, b)
    case Lte => a == b || TextBefore(a, b)
    case _ => false
  }

  lemma TextHoldsIs(T: Text, text: string, v: Value, op: Op)
    ensures Compare(T, Str(text), v, op) == TextHolds(T.lower(text), op, T.lower(Print(T, v)))
  {
    var a, b := T.lower(text), T.lower(Print(T, v));
    hide CompareText, TextBefore;
    TextOrder(a, b);
    TextOrder(b, a);
    TextOrderTurned(a, b);
  }

  lemma TextSelects(T: Text, index: TagIndex, t: Track, f: Field, op: Op, v: Value, text: string)
    requires FloatLaws(T) && Listed(f) && !f.Tag? && !FieldSql(f).1 && f != Favorite && ValueOf(T, t, f) == Str(text)
    ensures var operand := if f == Path then Str(ForwardSlashes(Print(T, v))) else v;
            Selects(T, index, t, f, op, v,
                    if op == IsEmpty then T.trim(text) == ""
                    else if op == IsNotEmpty then T.trim(text) != ""
                    else TextHolds(T.lower(text), op, T.lower(Print(T, operand))))
  {
    hide FloatLaws, ValueOf, FieldSql, CompileCond, TextHolds, KnownField, Compare, Match, Print, Listed, Answer;
    TextColumnAgrees(T, index, t, f, op, v);
    TextMatch(T, t, f, op, v, text);
    if op != IsEmpty && op != IsNotEmpty {
      TextHoldsIs(T, text, if f == Path then Str(ForwardSlashes(Print(T, v))) else v, op);
    }
  }

  lemma TextColumnAgrees(T: Text, index: TagIndex, t: Track, f: Field, op: Op, v: Value)
    requires FloatLaws(T) && Listed(f) && !f.Tag? && !FieldSql(f).1 && f != Favorite
    ensures Agrees(T, index, t, f, op, v)
  {
    hide FloatLaws, FieldSql, Agrees, KnownField;
    if op == IsEmpty || op == IsNotEmpty {
      EmptyAgrees(T, index, t, f, op, v);
    } else {
      TextAgrees(T, index, t, f, op, v);
    }
  }

  lemma TextMatch(T: Text, t: Track, f: Field, op: Op, v: Value, text: string)
    requires !f.Tag? && ValueOf(T, t, f) == Str(text)
    ensures Match(T, Cond(f, op, v), t) ==
            if op == IsEmpty then T.trim(text) == ""
            else if op == IsNotEmpty then T.trim(text) != ""
            else Compare(T, Str(text), if f == Path then Str(ForwardSlashes(Print(T, v))) else v, op)
  {
    hide ValueOf, Compare, Print;
  }

  /** A condition on a text: trimmed for emptiness, folded on both sides for everything else. */
  ghost predicate OnText(T: Text, index: TagIndex, t: Track, f: Field, op: Op, v: Value, text: string) {
    Selects(T, index, t, f, op, v,
            if op == IsEmpty then T.trim(text) == ""
            else if op == IsNotEmpty then T.trim(text) != ""
            else TextHolds(T.lower(text), op, T.lower(Print(T, v))))
  }

  lemma OneTextSelects(T: Text, index: TagIndex, t: Track, f: Field, op: Op, v: Value, text: string)
    requires FloatLaws(T) && ValueOf(T, t, f) == Str(text)
    requires f == Title || f == Artist || f == Album || f == AlbumArtist || f == Genre || f == Format || f == Key
    ensures OnText(T, index, t, f, op, v, text)
  {
    hide FloatLaws, ValueOf, Selects, TextHolds, Print;
    TextSelects(T, index, t, f, op, v, text);
  }

  /** Conditions on the text columns look at the columns they name. */
  lemma TextConditionSelects(T: Text, index: TagIndex, t: Track, op: Op, v: Value)
    requires FloatLaws(T)
    ensures OnText(T, index, t, Title, op, v, t.title) && OnText(T, index, t, Artist, op, v, t.artist)
    ensures OnText(T, index, t, Album, op, v, t.album) && OnText(T, index, t, AlbumArtist, op, v, t.albumArtist)
    ensures OnText(T, index, t, Genre, op, v, t.genre) && OnText(T, index, t, Format, op, v, t.format)
    ensures OnText(T, index, t, Key, op, v, KeyOf(T, t))
  {
    hide FloatLaws, KeyOf, OnText;
    OneTextSelects(T, index, t, Title, op, v, t.title);
    OneTextSelects(T, index, t, Artist, op, v, t.artist);
    OneTextSelects(T, index, t, Album, op, v, t.album);
    OneTextSelects(T, index, t, AlbumArtist, op, v, t.albumArtist);
    OneTextSelects(T, index, t, Genre, op, v, t.genre);
    OneTextSelects(T, index, t, Format, op, v, t.format);
    OneTextSelects(T, index, t, Key, op, v, KeyOf(T, t));
  }

  /** Backslashes have become slashes and nothing else has changed. */
  ghost predicate Slashed(s: string, r: string) {
    |r| == |s| && forall i | 0 <= i < |s| :: r[i] == if s[i] == '\\' then '/' else s[i]
  }

  /** Paths are compared with forward slashes on both sides. */
  lemma PathConditionSelects(T: Text, index: TagIndex, t: Track, op: Op, v: Value)
    returns (path: string, sought: string)
    requires FloatLaws(T)
    ensures Slashed(t.path, path) && Slashed(Print(T, v), sought)
    ensures Selects(T, index, t, Path, op, v,
                if op == IsEmpty then T.trim(path) == ""
                else if op == IsNotEmpty then T.trim(path) != ""
                else TextHolds(T.lower(path), op, T.lower(sought)))
  {
    path, sought := ForwardSlashes(t.path), ForwardSlashes(Print(T, v));
    hide FloatLaws, Selects, TextHolds;
    TextSelects(T, index, t, Path, op, v, path);
  }

  /** A favourite is the text true or false; a boolean operand is compared as such. */
  lemma FavoriteConditionSelects(T: Text, index: TagIndex, t: Track, op: Op, v: Value)
    requires FloatLaws(T) && FoldsBooleans(T)
    ensures Selects(T, index, t, Favorite, op, v,
                if op == IsEmpty then false
                else if op == IsNotEmpty then true
                else TextHolds(T.lower(if t.favorite then "true" else "false"), op, T.lower(Print(T, v))))
    ensures v.Boolean? ==> Selects(T, index, t, Favorite, Eq, v, v.b == t.favorite)
  {
    hide FloatLaws, TextHolds;
    FavoriteHolds(T, t, v, op);
    FavoriteHolds(T, t, v, Eq);
    FavoriteMatch(T, t, v, op);
    hide Match, CompileCond, FoldsBooleans, Compare, ValueOf;
    if v.Boolean? {
      FavoriteAgrees(T, index, t, Eq, v);
      FavoriteEq(T, t, v);
    }
    if op == IsEmpty || op == IsNotEmpty {
      EmptyAgrees(T, index, t, Favorite, op, v);
    } else if v.Boolean? && (op == Eq || op == Ne) {
      FavoriteAgrees(T, index, t, op, v);
    } else {
      TextAgrees(T, index, t, Favorite, op, v);
    }
  }

  lemma FavoriteEq(T: Text, t: Track, v: Value)
    requires FoldsBooleans(T) && v.Boolean?
    ensures Match(T, Cond(Favorite, Eq, v), t) == (v.b == t.favorite)
  {}

  lemma FavoriteMatch(T: Text, t: Track, v: Value, op: Op)
    ensures Match(T, Cond(Favorite, op, v), t) ==
            if op == IsEmpty then false else if op == IsNotEmpty then true else Compare(T, Boolean(t.favorite), v, op)
  {
    hide Compare;
  }

  lemma FavoriteHolds(T: Text, t: Track, v: Value, op: Op)
    ensures Compare(T, Boolean(t.favorite), v, op) ==
            TextHolds(T.lower(if t.favorite then "true" else "false"), op, T.lower(Print(T, v)))
  {
    var text := if t.favorite then "true" else "false";
    TextHoldsIs(T, text, v, op);
    hide TextHolds, CompareText, Includes;
  }

  /******* Numbers *******/

  predicate NumberHolds(x: real, op: Op, y: real) {
    match op
    case Eq => x == y
    case Ne => x != y
    case Gt => x > y
    case Gte => x >= y
    case Lt => x < y
    case Lte => x <= y
    case _ => false
  }

  /** A condition on a number: compared with the operand read as a number, or searched as Go prints it. */
  ghost predicate OnNumber(T: Text, t: Track, f: Field, op: Op, v: Value, x: real) {
    Match(T, Cond(f, op, v), t) <==>
    match op
    case IsEmpty => x == 0.0 && f != PlayCount
    case IsNotEmpty => x != 0.0 || f == PlayCount
    case Contains => Includes(T.lower(T.printReal(x)), T.lower(Print(T, v)))
    case NotContains => !Includes(T.lower(T.printReal(x)), T.lower(Print(T, v)))
    case _ => T.parse(Print(T, v)).Some? && NumberHolds(x, op, T.parse(Print(T, v)).value)
  }

  lemma NumberMeans(T: Text, t: Track, f: Field, op: Op, v: Value, x: real)
    requires ValueOf(T, t, f) == Number(x) && !f.Tag? && f != Path
    ensures OnNumber(T, t, f, op, v, x)
  {
    hide ValueOf;
  }

  lemma CountMatches(T: Text, t: Track, op: Op, v: Value)
    ensures OnNumber(T, t, Year, op, v, T.float(t.year)) && OnNumber(T, t, PlayCount, op, v, T.float(t.playCount))
    ensures OnNumber(T, t, Disc, op, v, T.float(t.disc)) && OnNumber(T, t, TrackNumber, op, v, T.float(t.number))
  {
    hide OnNumber, BpmOf, KeyOf, Match, Compare, Missing, Join, ForwardSlashes;
    NumberMeans(T, t, Year, op, v, T.float(t.year));
    NumberMeans(T, t, PlayCount, op, v, T.float(t.playCount));
    NumberMeans(T, t, Disc, op, v, T.float(t.disc));
    NumberMeans(T, t, TrackNumber, op, v, T.float(t.number));
  }

  lemma MeasureMatches(T: Text, t: Track, op: Op, v: Value)
    ensures OnNumber(T, t, Duration, op, v, t.duration) && OnNumber(T, t, AddedAt, op, v, T.float(t.addedAt))
    ensures OnNumber(T, t, Bitrate, op, v, T.float(t.bitrate))
            && OnNumber(T, t, SampleRate, op, v, T.float(t.sampleRate))
  {
    hide OnNumber, BpmOf, KeyOf, Match, Compare, Missing, Join, ForwardSlashes;
    NumberMeans(T, t, Duration, op, v, t.duration);
    NumberMeans(T, t, AddedAt, op, v, T.float(t.addedAt));
    NumberMeans(T, t, Bitrate, op, v, T.float(t.bitrate));
    NumberMeans(T, t, SampleRate, op, v, T.float(t.sampleRate));
  }

  /** Conditions on the numeric columns look at the columns they name. */
  lemma NumberConditionMatches(T: Text, t: Track, op: Op, v: Value)
    ensures OnNumber(T, t, Year, op, v, T.float(t.year)) && OnNumber(T, t, Duration, op, v, t.duration)
    ensures OnNumber(T, t, PlayCount, op, v, T.float(t.playCount)) && OnNumber(T, t, AddedAt, op, v, T.float(t.addedAt))
    ensures OnNumber(T, t, Disc, op, v, T.float(t.disc)) && OnNumber(T, t, TrackNumber, op, v, T.float(t.number))
    ensures OnNumber(T, t, Bitrate, op, v, T.float(t.bitrate))
            && OnNumber(T, t, SampleRate, op, v, T.float(t.sampleRate))
    ensures BpmOf(T, t).Number? ==> OnNumber(T, t, Bpm, op, v, BpmOf(T, t).x)
    ensures BpmOf(T, t).Nil? ==> (Match(T, Cond(Bpm, op, v), t) <==> op == IsEmpty || op == Ne)
  {
    hide OnNumber, BpmOf, KeyOf, Match;
    CountMatches(T, t, op, v);
    MeasureMatches(T, t, op, v);
    if BpmOf(T, t).Number? { NumberMeans(T, t, Bpm, op, v, BpmOf(T, t).x); }
    if BpmOf(T, t).Nil? { NoBpm(T, t, op, v); }
  }

  lemma NoBpm(T: Text, t: Track, op: Op, v: Value)
    requires BpmOf(T, t).Nil?
    ensures Match(T, Cond(Bpm, op, v), t) <==> op == IsEmpty || op == Ne
  {
    hide BpmOf;
  }

  /******* Values made from tags *******/

  /** Every value of these tags, in their order. */
  ghost function AllValues(t: Track, names: seq<string>): seq<string> {
    if names == [] then [] else (if names[0] in t.tags then t.tags[names[0]] else []) + AllValues(t, names[1..])
  }

  predicate PositiveText(T: Text, text: string) {
    T.parse(T.trim(text)).Some? && T.parse(T.trim(text)).value > 0.0
  }

  lemma {:induction false} FirstPositiveIs(T: Text, texts: seq<string>)
    ensures FirstPositive(T, texts).None? <==> forall i | 0 <= i < |texts| :: !PositiveText(T, texts[i])
    ensures FirstPositive(T, texts).Some? ==>
              exists k | 0 <= k < |texts| ::
                && PositiveText(T, texts[k]) && T.parse(T.trim(texts[k])) == FirstPositive(T, texts)
                && forall i | 0 <= i < k :: !PositiveText(T, texts[i])
  {
    if texts != [] && !PositiveText(T, texts[0]) {
      var rest := texts[1..];
      FirstPositiveIs(T, rest);
      assert forall i | 1 <= i < |texts| :: texts[i] == rest[i - 1];
      if FirstPositive(T, rest).Some? {
        var k :| 0 <= k < |rest| && PositiveText(T, rest[k]) && T.parse(T.trim(rest[k])) == FirstPositive(T, rest)
                 && forall i | 0 <= i < k :: !PositiveText(T, rest[i]);
        assert texts[k + 1] == rest[k];
      }
    }
  }

  lemma {:induction false} FirstPositiveJoined(T: Text, a: seq<string>, b: seq<string>)
    ensures FirstPositive(T, a + b) == if FirstPositive(T, a).Some? then FirstPositive(T, a) else FirstPositive(T, b)
  {
    if a == [] {
      assert a + b == b;
    } else {
      assert (a + b)[1..] == a[1..] + b;
      FirstPositiveJoined(T, a[1..], b);
    }
  }

  /** bpm is the first positive number among the values of bpm, tbpm and tempo, and none without one. */
  lemma BpmMeans(T: Text, t: Track)
    ensures var texts := AllValues(t, ["bpm", "tbpm", "tempo"]);
            if forall i | 0 <= i < |texts| :: !PositiveText(T, texts[i]) then BpmOf(T, t) == Nil
            else exists k | 0 <= k < |texts| ::
                   && PositiveText(T, texts[k]) && BpmOf(T, t) == Number(T.parse(T.trim(texts[k])).value)
                   && forall i | 0 <= i < k :: !PositiveText(T, texts[i])
  {
    var a, b, c := TagValues(t, "bpm"), TagValues(t, "tbpm"), TagValues(t, "tempo");
    var texts := AllValues(t, ["bpm", "tbpm", "tempo"]);
    assert ["bpm", "tbpm", "tempo"][1..] == ["tbpm", "tempo"] && ["tbpm", "tempo"][1..] == ["tempo"]
        && ["tempo"][1..] == [];
    assert AllValues(t, ["tempo"]) == c + AllValues(t, []) && c + [] == c;
    assert AllValues(t, ["tbpm", "tempo"]) == b + AllValues(t, ["tempo"]);
    assert texts == a + (b + c);
    FirstPositiveIs(T, texts);
    FirstPositiveJoined(T, a, b + c);
    FirstPositiveJoined(T, b, c);
    hide FirstPositive, AllValues, PositiveText, TagValues;
    assert BpmOf(T, t) == match FirstPositive(T, texts) case None => Nil case Some(x) => Number(x);
  }

  lemma {:induction false} FirstNonblankIs(T: Text, texts: seq<string>)
    ensures FirstNonblank(T, texts).None? <==> forall i | 0 <= i < |texts| :: T.trim(texts[i]) == ""
    ensures FirstNonblank(T, texts).Some? ==>
              exists k | 0 <= k < |texts| ::
                && T.trim(texts[k]) == FirstNonblank(T, texts).value != ""
                && forall i | 0 <= i < k :: T.trim(texts[i]) == ""
  {
    if texts != [] && T.trim(texts[0]) == "" {
      var rest := texts[1..];
      FirstNonblankIs(T, rest);
      assert forall i | 1 <= i < |texts| :: texts[i] == rest[i - 1];
      if FirstNonblank(T, rest).Some? {
        var k :| 0 <= k < |rest| && T.trim(rest[k]) == FirstNonblank(T, rest).value != ""
                 && forall i | 0 <= i < k :: T.trim(rest[i]) == "";
        assert texts[k + 1] == rest[k];
      }
    }
  }

  lemma {:induction false} FirstNonblankJoined(T: Text, a: seq<string>, b: seq<string>)
    ensures FirstNonblank(T, a + b) == if FirstNonblank(T, a).Some? then FirstNonblank(T, a) else FirstNonblank(T, b)
  {
    if a == [] {
      assert a + b == b;
    } else {
      assert (a + b)[1..] == a[1..] + b;
      FirstNonblankJoined(T, a[1..], b);
    }
  }

  /** key is the first value that is not blank among those of four tags, trimmed, and empty without one. */
  lemma KeyMeans(T: Text, t: Track)
    ensures var texts := AllValues(t, ["initialkey", "initial_key", "tkey", "key"]);
            if forall i | 0 <= i < |texts| :: T.trim(texts[i]) == "" then KeyOf(T, t) == ""
            else exists k | 0 <= k < |texts| ::
                   && T.trim(texts[k]) == KeyOf(T, t) != "" && forall i | 0 <= i < k :: T.trim(texts[i]) == ""
  {
    var names := ["initialkey", "initial_key", "tkey", "key"];
    var a, b := TagValues(t, "initialkey"), TagValues(t, "initial_key");
    var c, d := TagValues(t, "tkey"), TagValues(t, "key");
    var texts := AllValues(t, names);
    assert names[1..] == ["initial_key", "tkey", "key"] && names[1..][1..] == ["tkey", "key"]
        && names[1..][1..][1..] == ["key"] && names[1..][1..][1..][1..] == [];
    assert AllValues(t, ["key"]) == d + AllValues(t, []) && d + [] == d;
    assert AllValues(t, ["tkey", "key"]) == c + AllValues(t, ["key"]);
    assert AllValues(t, ["initial_key", "tkey", "key"]) == b + AllValues(t, ["tkey", "key"]);
    assert texts == a + (b + (c + d));
    FirstNonblankIs(T, texts);
    FirstNonblankJoined(T, a, b + (c + d));
    FirstNonblankJoined(T, b, c + d);
    FirstNonblankJoined(T, c, d);
    hide FirstNonblank, AllValues, TagValues;
    assert KeyOf(T, t) == match FirstNonblank(T, texts) case None => "" case Some(key) => key;
  }

  /** Operands are compared as Go prints them. */
  lemma PrintMeans(T: Text)
    ensures Print(T, Nil) == "<nil>" && Print(T, Boolean(true)) == "true" && Print(T, Boolean(false)) == "false"
    ensures forall x :: Print(T, Number(x)) == T.printReal(x)
    ensures forall s :: Print(T, Str(s)) == s && Print(T, Composite(s)) == s
  {}

  predicate Around(a: string, sub: string, b: string, s: string) { s == a + sub + b }

  /** A text includes another when it is that text with something on either side. */
  lemma IncludesMeans(s: string, sub: string)
    ensures Includes(s, sub) <==> exists a, b :: Around(a, sub, b, s)
  {
    if i :| 0 <= i <= |s| - |sub| && OccursAt(s, sub, i) { assert Around(s[..i], sub, s[i + |sub|..], s); }
    if a, b :| Around(a, sub, b, s) { assert OccursAt(s, sub, |a|); }
  }

  /******* Accepted rules *******/

  /** The conditions that are accepted, for the fields and operators of the documentation. */
  lemma AcceptedConditions(T: Text, f: Field, op: Op, v: Value)
    requires !f.Unlisted? && !op.OtherOp?
    ensures var ok := match f
                      case Title | Artist | Album | AlbumArtist | Genre | Key | Format | Favorite => true
                      case Tag(name) => name != ""
                      case Path =>
                        op == IsEmpty || op == IsNotEmpty
                        || (v.Str? && v.s != "" && (op == Contains || op == NotContains || op == Eq || op == Ne))
                      case Year | Duration | PlayCount | AddedAt | Disc | TrackNumber | Bitrate | SampleRate | Bpm =>
                        op == IsEmpty || op == IsNotEmpty || T.parse(Print(T, v)).Some?
                      case _ => false;
            Valid(T, Cond(f, op, v)) <==> ok
  {}

  function Copies(r: Rule, n: nat): seq<Rule> { seq(n, _ => r) }

  /** r inside d groups of one. */
  function Nested(r: Rule, d: nat): Rule { if d == 0 then r else Group(All, [Nested(r, d - 1)]) }

  lemma {:induction false} CopiesNodes(r: Rule, n: nat)
    requires r.Cond?
    ensures NodesOf(Copies(r, n)) == n
  {
    if n > 0 {
      assert Copies(r, n)[1..] == Copies(r, n - 1);
      CopiesNodes(r, n - 1);
    }
  }

  lemma {:induction false} NestedMeans(T: Text, r: Rule, d: nat, depth: nat)
    requires r.Cond? && depth > 0
    ensures Nodes(Nested(r, d)) == d + 1 && (WellFormed(T, Nested(r, d)) <==> WellFormed(T, r))
    ensures Shallow(Nested(r, d), depth) <==> depth + (if d == 0 then 0 else d - 1) <= 4
  {
    if d > 0 {
      var rules := [Nested(r, d - 1)];
      NestedMeans(T, r, d - 1, if d > 1 then depth + 1 else depth);
      assert NodesOf(rules) == Nodes(rules[0]) + NodesOf(rules[1..]) && rules[1..] == [];
      assert rules[0].Group? <==> d > 1;
    }
  }

  /** One to 29 conditions in a group, four levels of groups, and no group without a mode or a rule. */
  lemma RuleLimits(T: Text, r: Rule, mode: Mode, n: nat)
    requires r.Cond? && Valid(T, r)
    ensures Valid(T, Group(mode, Copies(r, n))) <==> mode != OtherMode && 1 <= n <= 29
    ensures Valid(T, Nested(r, n)) <==> n <= 4
  {
    CopiesNodes(r, n);
    NestedMeans(T, r, n, 1);
    assert n > 0 ==> Copies(r, n)[0] == r;
    assert Shallow(Group(mode, Copies(r, n)), 1);
  }

  /** A group wants all of its rules, or any; a tag condition sees every one of its values. */
  lemma GroupMeans(T: Text, a: Rule, b: Rule, t: Track)
    ensures Match(T, Group(All, [a, b]), t) <==> Match(T, a, t) && Match(T, b, t)
    ensures Match(T, Group(Any, [a, b]), t) <==> Match(T, a, t) || Match(T, b, t)
    ensures Match(T, Group(All, []), t) && !Match(T, Group(Any, []), t)
  {
    assert [a, b][0] == a && [a, b][1] == b;
  }
}
