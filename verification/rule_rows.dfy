/**
 Rule trees as rows (internal/app/store_entities.go): persistRule numbers the nodes of a tree
 and inserts a row for each; loadRules reads them in an order of its own and rebuilds the
 tree. JSON is a parameter: `norm` is what a value becomes on its way through it.
 */
module RuleRows {
  import opened Wrappers

  datatype Label<+J> = Label(mode: string, field: string, op: string, value: J, source: string, recursive: bool)

  datatype Rule<+J> = Rule(own: Label<J>, rules: seq<Rule<J>>)

  datatype Json<!J> = Json(marshal: J -> Option<string>, unmarshal: string -> Option<J>, norm: J -> J)

  datatype Row = Row(node: nat, parent: Option<nat>, position: nat, own: Label<string>)

  ghost predicate Lawful<J(!new)>(e: Json<J>) {
    forall v: J :: e.marshal(v).Some? ==> e.unmarshal(e.marshal(v).value) == Some(e.norm(v))
  }

  function MapLabel<A, B>(l: Label<A>, value: B): Label<B>
  {
    Label(l.mode, l.field, l.op, value, l.source, l.recursive)
  }

  /******* Writing *******/

  function Count<J>(r: Rule<J>): nat
    decreases r, |r.rules| + 1
  {
    1 + CountFrom(r, 0)
  }

  function CountFrom<J>(r: Rule<J>, i: nat): nat
    requires i <= |r.rules|
    decreases r, |r.rules| - i
  {
    if i == |r.rules| then 0 else Count(r.rules[i]) + CountFrom(r, i + 1)
  }

  predicate Encodable<J>(e: Json<J>, r: Rule<J>) {
    e.marshal(r.own.value).Some? && forall i | 0 <= i < |r.rules| :: Encodable(e, r.rules[i])
  }

  function Cells<J>(e: Json<J>, l: Label<J>): Label<string> {
    MapLabel(l, match e.marshal(l.value) { case Some(s) => s case None => "" })
  }

  /** The rows of a tree whose root gets the number `id`: the root, then its subtrees in order. */
  function Rows<J>(e: Json<J>, r: Rule<J>, parent: Option<nat>, position: nat, id: nat): seq<Row>
    decreases r, |r.rules| + 1
  {
    [Row(id, parent, position, Cells(e, r.own))] + RowsFrom(e, r, 0, id, id + 1)
  }

  /** The rows of the subtrees from the i-th on, the first numbered `next`. */
  function RowsFrom<J>(e: Json<J>, r: Rule<J>, i: nat, id: nat, next: nat): seq<Row>
    requires i <= |r.rules|
    decreases r, |r.rules| - i
  {
    if i == |r.rules| then []
    else Rows(e, r.rules[i], Some(id), i, next) + RowsFrom(e, r, i + 1, id, next + Count(r.rules[i]))
  }

  /******* Reading *******/

  /** ORDER BY position, node_id, with node_id a key. */
  predicate Ahead(a: Row, b: Row) { a.position < b.position || (a.position == b.position && a.node < b.node) }

  ghost predicate Sorted(list: seq<Row>) { forall i, j | 0 <= i < j < |list| :: Ahead(list[i], list[j]) }

  function Children(list: seq<Row>, id: nat): seq<Row> {
    if list == [] then []
    else Children(list[..|list| - 1], id) + if list[|list| - 1].parent == Some(id) then [list[|list| - 1]] else []
  }

  function Decoded<J>(e: Json<J>, l: Label<string>): Option<Label<J>> {
    match e.unmarshal(l.value)
    case None => None
    case Some(v) => Some(MapLabel(l, v))
  }

  /** loadRules' build, to at most `depth` levels. */
  function Build<J>(e: Json<J>, list: seq<Row>, n: Row, depth: nat): Option<Rule<J>>
    decreases depth, |list| + 1
  {
    if depth == 0 then None
    else
      match (Decoded(e, n.own), BuildAll(e, list, Children(list, n.node), depth)) {
        case (Some(l), Some(rules)) => Some(Rule(l, rules))
        case _ => None
      }
  }

  function BuildAll<J>(e: Json<J>, list: seq<Row>, nodes: seq<Row>, depth: nat): Option<seq<Rule<J>>>
    requires depth > 0
    decreases depth, 0, |nodes|
  {
    if nodes == [] then Some([])
    else
      match (BuildAll(e, list, nodes[..|nodes| - 1], depth), Build(e, list, nodes[|nodes| - 1], depth - 1)) {
        case (Some(front), Some(last)) => Some(front + [last])
        case _ => None
      }
  }

  function Normal<J>(e: Json<J>, r: Rule<J>): Rule<J> {
    Rule(MapLabel(r.own, e.norm(r.own.value)), seq(|r.rules|, i requires 0 <= i < |r.rules| => Normal(e, r.rules[i])))
  }

  function Height<J>(r: Rule<J>): nat
    decreases r, |r.rules| + 1
  {
    1 + HeightFrom(r, 0)
  }

  function HeightFrom<J>(r: Rule<J>, i: nat): nat
    requires i <= |r.rules|
    decreases r, |r.rules| - i
  {
    if i == |r.rules| then 0
    else
      var first, others := Height(r.rules[i]), HeightFrom(r, i + 1);
      if first > others then first else others
  }

  /******* Where the rows of a tree are *******/

  /** The number of the i-th child's root. */
  function At<J>(r: Rule<J>, i: nat, id: nat): nat
    requires i <= |r.rules|
  {
    if i == 0 then id + 1 else At(r, i - 1, id) + Count(r.rules[i - 1])
  }

  function RootRow<J>(e: Json<J>, r: Rule<J>, parent: Option<nat>, position: nat, id: nat): Row {
    Row(id, parent, position, Cells(e, r.own))
  }

  /** The rows of everything below the root. */
  function Below<J>(e: Json<J>, r: Rule<J>, id: nat): seq<Row> { RowsFrom(e, r, 0, id, id + 1) }

  lemma {:induction false} AtGrows<J>(r: Rule<J>, i: nat, j: nat, id: nat)
    requires i <= j <= |r.rules|
    ensures id < At(r, i, id) <= At(r, j, id)
    ensures i < j ==> At(r, i, id) + Count(r.rules[i]) <= At(r, j, id)
    decreases j
  {
    if i < j { AtGrows(r, i, j - 1, id); } else if i > 0 { AtGrows(r, i - 1, j - 1, id); }
  }

  lemma CountIs<J>(r: Rule<J>, id: nat)
    ensures At(r, |r.rules|, id) == id + Count(r)
  {
    CountSplits(r, |r.rules|, id);
  }

  lemma {:induction false} CountSplits<J>(r: Rule<J>, i: nat, id: nat)
    requires i <= |r.rules|
    ensures At(r, i, id) + CountFrom(r, i) == id + 1 + CountFrom(r, 0)
  {
    if i > 0 { CountSplits(r, i - 1, id); }
  }

  /** The first row is the root's, with its value as JSON; the rows of its children follow, under its number. */
  lemma RowsMean<J>(e: Json<J>, r: Rule<J>, parent: Option<nat>, position: nat, id: nat)
    requires Encodable(e, r)
    ensures var rows := Rows(e, r, parent, position, id);
            && rows != [] && rows[0].node == id && rows[0].parent == parent && rows[0].position == position
            && rows[0].own == Label(r.own.mode, r.own.field, r.own.op, e.marshal(r.own.value).value, r.own.source,
                                    r.own.recursive)
            && (r.rules == [] ==> |rows| == 1)
            && (r.rules != [] ==>
                  && |rows| > 1 && rows[1].node == id + 1 && rows[1].parent == Some(id) && rows[1].position == 0
                  && rows[1].own.op == r.rules[0].own.op && rows[1].own.field == r.rules[0].own.field)
  {
    if r.rules != [] {
      assert Rows(e, r.rules[0], Some(id), 0, id + 1) != [];
    }
  }

  /** Rows are numbered one after the other from `id`. */
  lemma {:induction false} Numbered<J>(e: Json<J>, r: Rule<J>, parent: Option<nat>, position: nat, id: nat)
    ensures |Rows(e, r, parent, position, id)| == Count(r)
    ensures forall k | 0 <= k < Count(r) :: Rows(e, r, parent, position, id)[k].node == id + k
    decreases r, |r.rules| + 1
  {
    NumberedFrom(e, r, 0, id, id + 1);
  }

  lemma {:induction false} NumberedFrom<J>(e: Json<J>, r: Rule<J>, i: nat, id: nat, next: nat)
    requires i <= |r.rules|
    ensures |RowsFrom(e, r, i, id, next)| == CountFrom(r, i)
    ensures forall k | 0 <= k < CountFrom(r, i) :: RowsFrom(e, r, i, id, next)[k].node == next + k
    decreases r, |r.rules| - i
  {
    if i < |r.rules| {
      Numbered(e, r.rules[i], Some(id), i, next);
      NumberedFrom(e, r, i + 1, id, next + Count(r.rules[i]));
    }
  }

  /** The rows of the j-th child's tree. */
  function ChildTree<J>(e: Json<J>, r: Rule<J>, j: nat, id: nat): seq<Row>
    requires j < |r.rules|
  {
    Rows(e, r.rules[j], Some(id), j, At(r, j, id))
  }

  lemma InChildTree<J>(e: Json<J>, r: Rule<J>, j: nat, id: nat, row: Row)
    requires j < |r.rules|
    ensures row in ChildTree(e, r, j, id) <==>
            row == RootRow(e, r.rules[j], Some(id), j, At(r, j, id)) || row in Below(e, r.rules[j], At(r, j, id))
  {
    hide RowsFrom, At, Cells;
  }

  lemma FromChild<J>(e: Json<J>, r: Rule<J>, i: nat, id: nat, row: Row)
    requires i < |r.rules|
    ensures row in RowsFrom(e, r, i, id, At(r, i, id)) <==>
            row in ChildTree(e, r, i, id) || row in RowsFrom(e, r, i + 1, id, At(r, i + 1, id))
  {
    hide Rows, Count;
  }

  /** A row below the root is in the rows of one child. */
  lemma {:induction false} InOneChild<J>(e: Json<J>, r: Rule<J>, i: nat, id: nat, row: Row)
    requires i <= |r.rules|
    ensures row in RowsFrom(e, r, i, id, At(r, i, id)) <==>
            exists j :: i <= j < |r.rules| && row in ChildTree(e, r, j, id)
    decreases |r.rules| - i
  {
    hide *;
    if i < |r.rules| {
      FromChild(e, r, i, id, row);
      InOneChild(e, r, i + 1, id, row);
    } else {
      NothingLeft(e, r, id);
    }
  }

  lemma NothingLeft<J>(e: Json<J>, r: Rule<J>, id: nat)
    ensures RowsFrom(e, r, |r.rules|, id, At(r, |r.rules|, id)) == []
  {}


  /** Below the root, parents are the nodes of the tree. */
  lemma {:induction false} ParentsInside<J>(e: Json<J>, r: Rule<J>, id: nat, row: Row)
    requires row in Below(e, r, id)
    ensures row.parent.Some? && id <= row.parent.value < id + Count(r)
    decreases r
  {
    InOneChild(e, r, 0, id, row);
    assert Below(e, r, id) == RowsFrom(e, r, 0, id, At(r, 0, id));
    hide RowsFrom, ChildTree, At, Below, Count, Cells;
    var j :| 0 <= j < |r.rules| && row in ChildTree(e, r, j, id);
    AtGrows(r, j, |r.rules|, id);
    CountIs(r, id);
    InChildTree(e, r, j, id, row);
    if row in Below(e, r.rules[j], At(r, j, id)) {
      ParentsInside(e, r.rules[j], At(r, j, id), row);
    } else {
      CountIsPositive(r);
    }
  }

  lemma CountIsPositive<J>(r: Rule<J>)
    ensures Count(r) > 0
  {}

  lemma BelowIsOneChild<J>(e: Json<J>, r: Rule<J>, id: nat, row: Row)
    ensures row in Below(e, r, id) <==> exists j :: 0 <= j < |r.rules| && row in ChildTree(e, r, j, id)
  {
    InOneChild(e, r, 0, id, row);
    hide ChildTree;
  }

  lemma ParentInChild<J>(e: Json<J>, r: Rule<J>, id: nat, k: nat, row: Row)
    requires k < |r.rules| && row in ChildTree(e, r, k, id) && row.parent.Some? && row.parent.value > id
    ensures row in Below(e, r.rules[k], At(r, k, id))
    ensures At(r, k, id) <= row.parent.value < At(r, k, id) + Count(r.rules[k])
  {
    InChildTree(e, r, k, id, row);
    hide ChildTree, Below, Count, At, Cells;
    ParentsInside(e, r.rules[k], At(r, k, id), row);
  }

  /** The rows whose parent is in a child's subtree are the rows below that child. */
  lemma BelowChild<J>(e: Json<J>, r: Rule<J>, id: nat, j: nat, row: Row)
    requires j < |r.rules| && row.parent.Some? && At(r, j, id) <= row.parent.value < At(r, j, id) + Count(r.rules[j])
    ensures row in Below(e, r, id) <==> row in Below(e, r.rules[j], At(r, j, id))
  {
    hide ChildTree, Below, Count, At, Cells;
    BelowIsOneChild(e, r, id, row);
    AtGrows(r, j, |r.rules|, id);
    if row in Below(e, r, id) {
      var k :| 0 <= k < |r.rules| && row in ChildTree(e, r, k, id);
      ParentInChild(e, r, id, k, row);
      if k < j { AtGrows(r, k, j, id); } else if j < k { AtGrows(r, j, k, id); }
    }
    InChildTree(e, r, j, id, row);
  }

  /** The rows whose parent is the root are those of its children. */
  lemma DirectChildren<J>(e: Json<J>, r: Rule<J>, id: nat, row: Row)
    requires row.parent == Some(id)
    ensures row in Below(e, r, id) <==>
            exists j :: 0 <= j < |r.rules| && row == RootRow(e, r.rules[j], Some(id), j, At(r, j, id))
  {
    hide ChildTree, Below, Count, At, Cells, RootRow;
    BelowIsOneChild(e, r, id, row);
    if row in Below(e, r, id) {
      var j :| 0 <= j < |r.rules| && row in ChildTree(e, r, j, id);
      AtGrows(r, j, j, id);
      InChildTree(e, r, j, id, row);
      NotBelow(e, r.rules[j], At(r, j, id), row);
    }
    if j :| 0 <= j < |r.rules| && row == RootRow(e, r.rules[j], Some(id), j, At(r, j, id)) {
      InChildTree(e, r, j, id, row);
    }
  }

  lemma NotBelow<J>(e: Json<J>, r: Rule<J>, id: nat, row: Row)
    requires row.parent.Some? && row.parent.value < id
    ensures row !in Below(e, r, id)
  {
    if row in Below(e, r, id) { ParentsInside(e, r, id, row); }
  }

  /******* Rebuilding *******/

  /** The list has the rows of the tree's inner edges, and no others with those parents. */
  ghost predicate Holds<J>(e: Json<J>, list: seq<Row>, r: Rule<J>, id: nat) {
    forall row: Row | row.parent.Some? && id <= row.parent.value < id + Count(r) :: row in list <==>
        row in Below(e, r, id)
  }

  lemma HoldsBelow<J>(e: Json<J>, list: seq<Row>, r: Rule<J>, id: nat, j: nat)
    requires Holds(e, list, r, id) && j < |r.rules|
    ensures Holds(e, list, r.rules[j], At(r, j, id))
  {
    AtGrows(r, j, |r.rules|, id);
    CountIs(r, id);
    forall row: Row | row.parent.Some? && At(r, j, id) <= row.parent.value < At(r, j, id) + Count(r.rules[j])
      ensures row in list <==> row in Below(e, r.rules[j], At(r, j, id))
    {
      BelowChild(e, r, id, j, row);
    }
  }

  lemma SortedFront(front: seq<Row>, last: Row)
    requires Sorted(front + [last])
    ensures Sorted(front) && forall row | row in front :: Ahead(row, last)
  {
    hide Ahead;
    var list := front + [last];
    forall i, j | 0 <= i < j < |front| ensures Ahead(front[i], front[j]) { assert Ahead(list[i], list[j]); }
    forall row | row in front ensures Ahead(row, last) {
      var i :| 0 <= i < |front| && front[i] == row;
      assert Ahead(list[i], list[|front|]);
    }
  }

  lemma SortedPush(list: seq<Row>, last: Row)
    requires Sorted(list) && forall row | row in list :: Ahead(row, last)
    ensures Sorted(list + [last])
  {
    hide Ahead;
  }

  lemma {:induction false} ChildrenAre(list: seq<Row>, id: nat)
    requires Sorted(list)
    ensures Sorted(Children(list, id))
    ensures forall row :: row in Children(list, id) <==> row in list && row.parent == Some(id)
  {
    hide Sorted, Ahead;
    if list != [] {
      var front, last := list[..|list| - 1], list[|list| - 1];
      assert list == front + [last];
      SortedFront(front, last);
      ChildrenAre(front, id);
      SortedPush(Children(front, id), last);
      assert Children(front, id) + [] == Children(front, id);
    } else {
      NoneSorted(list);
    }
  }

  lemma NoneSorted(list: seq<Row>)
    requires list == []
    ensures Sorted(list)
  {}

  /** Two sorted lists of the same rows are the same list. */
  lemma {:induction false} SameSorted(a: seq<Row>, b: seq<Row>)
    requires Sorted(a) && Sorted(b) && forall row :: row in a <==> row in b
    ensures a == b
  {
    assert b != [] ==> b[0] in a;
    if a != [] {
      assert a[0] in b;
      assert a[0] == b[0];
      forall row ensures row in a[1..] <==> row in b[1..] {
        assert row in a <==> row == a[0] || row in a[1..];
        assert row in b <==> row == b[0] || row in b[1..];
      }
      SameSorted(a[1..], b[1..]);
      assert a == [a[0]] + a[1..] && b == [b[0]] + b[1..];
    }
  }

  function ChildRows<J>(e: Json<J>, r: Rule<J>, id: nat): seq<Row> {
    seq(|r.rules|, j requires 0 <= j < |r.rules| => RootRow(e, r.rules[j], Some(id), j, At(r, j, id)))
  }

  /** Reading in position order gives a node's children back in their order. */
  lemma ChildrenInOrder<J>(e: Json<J>, list: seq<Row>, r: Rule<J>, id: nat)
    requires Sorted(list) && Holds(e, list, r, id)
    ensures Children(list, id) == ChildRows(e, r, id)
  {
    ChildrenAre(list, id);
    forall row ensures row in Children(list, id) <==> row in ChildRows(e, r, id) {
      if row.parent == Some(id) {
        DirectChildren(e, r, id, row);
        if j :| 0 <= j < |r.rules| && row == RootRow(e, r.rules[j], Some(id), j, At(r, j, id)) {
          assert ChildRows(e, r, id)[j] == row;
        }
      }
    }
    SameSorted(Children(list, id), ChildRows(e, r, id));
  }

  lemma {:induction false} HeightBelow<J>(r: Rule<J>, i: nat, j: nat)
    requires i <= j < |r.rules|
    ensures Height(r.rules[j]) <= HeightFrom(r, i)
    decreases j - i
  {
    if i < j { HeightBelow(r, i + 1, j); }
  }

  lemma DecodesToNormal<J(!new)>(e: Json<J>, r: Rule<J>)
    requires Lawful(e) && Encodable(e, r)
    ensures Decoded(e, Cells(e, r.own)) == Some(MapLabel(r.own, e.norm(r.own.value)))
  {}

  lemma BuildsFrom<J>(e: Json<J>, list: seq<Row>, r: Rule<J>, n: Row, depth: nat)
    requires depth > 0 && Decoded(e, n.own) == Some(MapLabel(r.own, e.norm(r.own.value)))
    requires BuildAll(e, list, Children(list, n.node), depth) == Some(Normal(e, r).rules)
    ensures Build(e, list, n, depth) == Some(Normal(e, r))
  {}

  lemma {:induction false} BuildRebuilds<J(!new)>(e: Json<J>, list: seq<Row>, r: Rule<J>, parent: Option<nat>,
          position: nat, id: nat, depth: nat)
    requires Lawful(e) && Sorted(list) && Holds(e, list, r, id) && Encodable(e, r) && depth >= Height(r)
    ensures Build(e, list, RootRow(e, r, parent, position, id), depth) == Some(Normal(e, r))
    decreases r, |r.rules| + 1
  {
    assert Height(r) > 0;
    assert |ChildRows(e, r, id)| == |r.rules| && |Normal(e, r).rules| == |r.rules|;
    DecodesToNormal(e, r);
    var n := RootRow(e, r, parent, position, id);
    assert n.node == id && n.own == Cells(e, r.own);
    hide Lawful, Sorted, Holds, Encodable, Build, BuildAll, Children, ChildRows, Normal, Decoded, Cells, Height, Rows,
         Count;
    ChildrenInOrder(e, list, r, id);
    BuildAllRebuilds(e, list, r, id, depth, |r.rules|);
    assert ChildRows(e, r, id)[..|r.rules|] == ChildRows(e, r, id);
    assert Normal(e, r).rules[..|r.rules|] == Normal(e, r).rules;
    BuildsFrom(e, list, r, n, depth);
  }

  lemma BuildsOneMore<J>(e: Json<J>, list: seq<Row>, nodes: seq<Row>, n: nat, depth: nat, front: seq<Rule<J>>,
          last: Rule<J>)
    requires depth > 0 && 0 < n <= |nodes|
    requires BuildAll(e, list, nodes[..n - 1], depth) == Some(front)
             && Build(e, list, nodes[n - 1], depth - 1) == Some(last)
    ensures BuildAll(e, list, nodes[..n], depth) == Some(front + [last])
  {
    assert nodes[..n][..n - 1] == nodes[..n - 1];
  }

  lemma {:induction false} BuildAllRebuilds<J(!new)>(e: Json<J>, list: seq<Row>, r: Rule<J>, id: nat, depth: nat,
          n: nat)
    requires Lawful(e) && Sorted(list) && Holds(e, list, r, id) && Encodable(e, r) && 0 < depth && depth >= Height(r)
             && n <= |r.rules|
    requires |ChildRows(e, r, id)| == |r.rules| && |Normal(e, r).rules| == |r.rules|
    ensures BuildAll(e, list, ChildRows(e, r, id)[..n], depth) == Some(Normal(e, r).rules[..n])
    decreases r, n
  {
    hide *;
    if n > 0 {
      var c, cid := r.rules[n - 1], At(r, n - 1, id);
      ChildFacts(e, r, id, n - 1);
      HoldsBelow(e, list, r, id, n - 1);
      BuildRebuilds(e, list, c, Some(id), n - 1, cid, depth - 1);
      BuildAllRebuilds(e, list, r, id, depth, n - 1);
      BuildsOneMore(e, list, ChildRows(e, r, id), n, depth, Normal(e, r).rules[..n - 1], Normal(e, c));
      assert Normal(e, r).rules[..n] == Normal(e, r).rules[..n - 1] + [Normal(e, c)];
    } else {
      BuildsNone(e, list, depth);
      assert ChildRows(e, r, id)[..0] == [] && Normal(e, r).rules[..0] == [];
    }
  }

  lemma BuildsNone<J>(e: Json<J>, list: seq<Row>, depth: nat)
    requires depth > 0
    ensures BuildAll(e, list, [], depth) == Some([])
  {}

  lemma ChildFacts<J(!new)>(e: Json<J>, r: Rule<J>, id: nat, j: nat)
    requires Encodable(e, r) && j < |r.rules| && |ChildRows(e, r, id)| == |r.rules| && |Normal(e, r).rules| == |r.rules|
    ensures Encodable(e, r.rules[j]) && ChildRows(e, r, id)[j] == RootRow(e, r.rules[j], Some(id), j, At(r, j, id))
    ensures Normal(e, r).rules[j] == Normal(e, r.rules[j]) && Height(r.rules[j]) < Height(r)
  {
    HeightBelow(r, 0, j);
  }

  /** The last row without a parent. */
  function Root(list: seq<Row>): Option<Row> {
    if list == [] then None
    else if list[|list| - 1].parent.None? then Some(list[|list| - 1])
    else Root(list[..|list| - 1])
  }

  /** What loadRules makes of one playlist's rows; None stands for an error, or no root. */
  function Load<J>(e: Json<J>, list: seq<Row>, depth: nat): Option<Rule<J>> {
    if Root(list).None? || (exists k :: 0 <= k < |list| && Decoded(e, list[k].own).None?) then None
    else Build(e, list, Root(list).value, depth)
  }

  lemma {:induction false} RootIsAmong(list: seq<Row>)
    ensures Root(list).Some? ==> Root(list).value in list && Root(list).value.parent.None?
    ensures Root(list).None? ==> forall row | row in list :: row.parent.Some?
  {
    if list != [] {
      var n := |list| - 1;
      assert list == list[..n] + [list[n]];
      RootIsAmong(list[..n]);
    }
  }

  /** Every row written decodes. */
  lemma {:induction false} RowsDecode<J(!new)>(e: Json<J>, r: Rule<J>, parent: Option<nat>, position: nat, id: nat)
    requires Lawful(e) && Encodable(e, r)
    ensures forall row | row in Rows(e, r, parent, position, id) :: Decoded(e, row.own).Some?
    decreases r, |r.rules| + 1
  {
    DecodesToNormal(e, r);
    RowsFromDecode(e, r, 0, id, id + 1);
  }

  lemma {:induction false} RowsFromDecode<J(!new)>(e: Json<J>, r: Rule<J>, i: nat, id: nat, next: nat)
    requires Lawful(e) && Encodable(e, r) && i <= |r.rules|
    ensures forall row | row in RowsFrom(e, r, i, id, next) :: Decoded(e, row.own).Some?
    decreases r, |r.rules| - i
  {
    hide Lawful, Decoded, Rows;
    if i < |r.rules| {
      RowsDecode(e, r.rules[i], Some(id), i, next);
      RowsFromDecode(e, r, i + 1, id, next + Count(r.rules[i]));
    }
  }

  /** One row has no parent, and the tree is rebuilt from it. */
  lemma RootRebuilds<J(!new)>(e: Json<J>, r: Rule<J>, list: seq<Row>, depth: nat)
    requires Lawful(e) && Encodable(e, r) && depth >= Height(r)
    requires forall i, j | 0 <= i < j < |list| ::
             list[i].position < list[j].position
                 || (list[i].position == list[j].position && list[i].node < list[j].node)
    requires forall row :: row in list <==> row in Rows(e, r, None, 0, 0)
    ensures forall row | row in list && row.parent.None? :: row == RootRow(e, r, None, 0, 0)
    ensures RootRow(e, r, None, 0, 0) in list && Build(e, list, RootRow(e, r, None, 0, 0), depth) == Some(Normal(e, r))
  {
    var root := RootRow(e, r, None, 0, 0);
    assert Rows(e, r, None, 0, 0) == [root] + Below(e, r, 0);
    forall row | row in Below(e, r, 0) ensures row.parent.Some? { ParentsInside(e, r, 0, row); }
    assert Rows(e, r, None, 0, 0)[0] == root;
    assert Holds(e, list, r, 0);
    BuildRebuilds(e, list, r, None, 0, 0, depth);
  }

  /**
   Whatever order the rows of a tree are read in, as long as it is by position, the tree read
   is the tree written, its children in order and its values as JSON leaves them.
   */
  lemma {:induction false} RowsRoundTrip<J(!new)>(e: Json<J>, r: Rule<J>, list: seq<Row>, depth: nat)
    requires Lawful(e) && Encodable(e, r) && depth >= Height(r)
    requires forall i, j | 0 <= i < j < |list| ::
             list[i].position < list[j].position
                 || (list[i].position == list[j].position && list[i].node < list[j].node)
    requires forall row :: row in list <==> row in Rows(e, r, None, 0, 0)
    ensures forall row | row in list && row.parent.None? :: row == RootRow(e, r, None, 0, 0)
    ensures RootRow(e, r, None, 0, 0) in list && Load(e, list, depth) == Some(Normal(e, r))
  {
    hide Lawful, Encodable, Sorted, Height, Rows, Build, Normal, Decoded, Root;
    SortedIs(list);
    RootRebuilds(e, r, list, depth);
    RootIsAmong(list);
    RowsDecode(e, r, None, 0, 0);
    assert RootRow(e, r, None, 0, 0).parent.None?;
  }

  lemma SortedIs(list: seq<Row>)
    requires forall i, j | 0 <= i < j < |list| ::
             list[i].position < list[j].position
                 || (list[i].position == list[j].position && list[i].node < list[j].node)
    ensures Sorted(list)
  {}

  /** What JSON leaves of a tree: its shape, and each label with its value as JSON gives it back. */
  lemma NormalMeans<J>(e: Json<J>, r: Rule<J>)
    ensures Normal(e, r).own ==
            Label(r.own.mode, r.own.field, r.own.op, e.norm(r.own.value), r.own.source, r.own.recursive)
    ensures |Normal(e, r).rules| == |r.rules|
    ensures forall i | 0 <= i < |r.rules| :: Normal(e, r).rules[i] == Normal(e, r.rules[i])
  {}

  /** A tree is one level higher than the highest of its children. */
  lemma HeightMeans<J>(r: Rule<J>)
    ensures r.rules == [] ==> Height(r) == 1
    ensures forall i | 0 <= i < |r.rules| :: Height(r.rules[i]) < Height(r)
    ensures r.rules != [] ==> exists i :: 0 <= i < |r.rules| && Height(r) == 1 + Height(r.rules[i])
  {
    forall i | 0 <= i < |r.rules| ensures Height(r.rules[i]) < Height(r) { HighestFrom(r, 0, i); }
    if r.rules != [] { var i := SomeHighest(r, 0); }
  }

  lemma {:induction false} HighestFrom<J>(r: Rule<J>, i: nat, j: nat)
    requires i <= j < |r.rules|
    ensures Height(r.rules[j]) <= HeightFrom(r, i)
    decreases j - i
  {
    if i < j { HighestFrom(r, i + 1, j); }
  }

  lemma {:induction false} SomeHighest<J>(r: Rule<J>, i: nat) returns (k: nat)
    requires i < |r.rules|
    ensures i <= k < |r.rules| && HeightFrom(r, i) == Height(r.rules[k])
    decreases |r.rules| - i
  {
    k := i;
    if i + 1 < |r.rules| {
      var later := SomeHighest(r, i + 1);
      if Height(r.rules[later]) > Height(r.rules[i]) { k := later; }
    }
  }

  /** A row whose value is no JSON fails the whole reading, wherever it stands. */
  lemma BadValueFails<J>(e: Json<J>, list: seq<Row>, depth: nat, k: nat)
    requires k < |list| && e.unmarshal(list[k].own.value).None?
    ensures Load(e, list, depth).None?
  {
    assert Decoded(e, list[k].own).None?;
  }

  /******* The methods *******/

  /** One playlist's rows of the table, as persistRule inserts them. */
  class Table<J> {
    const json: Json<J>
    var rows: seq<Row>
    var nextId: nat

    constructor (e: Json<J>)
      ensures json == e && rows == [] && nextId == 0
    {
      json, rows, nextId := e, [], 0;
    }

    /** persistRule; false when a value has no JSON form, and the transaction is given up. */
    method PersistRule(r: Rule<J>, parent: Option<nat>, position: nat) returns (ok: bool)
      modifies this
      ensures ok == Encodable(json, r)
      ensures ok ==>
              rows == old(rows) + Rows(json, r, parent, position, old(nextId)) && nextId == old(nextId) + Count(r)
      decreases r
    {
      hide Rows, RowsFrom, Count, CountFrom, Encodable, Cells;
      var id := nextId;
      nextId := nextId + 1;
      EncodableIs(json, r);
      var value := json.marshal(r.own.value);
      if value.None? { return false; }
      ghost var before := rows;
      rows := rows + [Row(id, parent, position, MapLabel(r.own, value.value))];
      RowsAre(json, r, parent, position, id, before);
      ghost var start := rows;
      for i := 0 to |r.rules|
        invariant rows + RowsFrom(json, r, i, id, nextId) == start + RowsFrom(json, r, 0, id, id + 1)
        invariant nextId + CountFrom(r, i) == id + 1 + CountFrom(r, 0)
        invariant forall k | 0 <= k < i :: Encodable(json, r.rules[k])
      {
        OneChildMore(json, r, i, id, nextId, rows);
        var fine := PersistRule(r.rules[i], Some(id), i);
        if !fine { return false; }
      }
      NoneMore(json, r, id, nextId);
      ok := true;
    }
  }

  lemma EncodableIs<J>(e: Json<J>, r: Rule<J>)
    ensures Encodable(e, r) <==>
            e.marshal(r.own.value).Some? && forall i | 0 <= i < |r.rules| :: Encodable(e, r.rules[i])
  {}

  lemma RowsAre<J>(e: Json<J>, r: Rule<J>, parent: Option<nat>, position: nat, id: nat, before: seq<Row>)
    requires e.marshal(r.own.value).Some?
    ensures (before + [Row(id, parent, position, MapLabel(r.own, e.marshal(r.own.value).value))]) + RowsFrom(e, r, 0,
            id, id + 1)
            == before + Rows(e, r, parent, position, id)
    ensures Count(r) == 1 + CountFrom(r, 0)
  {
    hide RowsFrom, CountFrom;
  }

  lemma NoneMore<J>(e: Json<J>, r: Rule<J>, id: nat, next: nat)
    ensures RowsFrom(e, r, |r.rules|, id, next) == [] && CountFrom(r, |r.rules|) == 0
  {}

  lemma OneChildMore<J>(e: Json<J>, r: Rule<J>, i: nat, id: nat, next: nat, rows: seq<Row>)
    requires i < |r.rules|
    ensures rows + RowsFrom(e, r, i, id, next) ==
            (rows + Rows(e, r.rules[i], Some(id), i, next)) + RowsFrom(e, r, i + 1, id, next + Count(r.rules[i]))
    ensures CountFrom(r, i) == Count(r.rules[i]) + CountFrom(r, i + 1)
  {
    hide Rows, Count;
  }

  /** loadRules for one playlist: the children of every node, the root, then the tree. */
  method LoadRule<J(!new)>(e: Json<J>, list: seq<Row>, depth: nat) returns (r: Option<Rule<J>>)
    ensures r == Load(e, list, depth)
  {
    hide Decoded, Build, Children, Root;
    var children: map<nat, seq<Row>> := map[];
    var root: Option<Row> := None;
    NothingRead();
    assert list[..0] == [];
    for i := 0 to |list|
      invariant Grouped(children, list[..i])
      invariant root == Root(list[..i])
      invariant forall k | 0 <= k < i :: Decoded(e, list[k].own).Some?
    {
      var n := list[i];
      if Decoded(e, n.own).None? { return None; }
      OneRead(children, list, i);
      match n.parent {
        case None => root := Some(n);
        case Some(p) => children := children[p := (if p in children then children[p] else []) + [n]];
      }
    }
    assert list[..|list|] == list;
    if root.None? { return None; }
    r := BuildNode(e, list, children, root.value, depth);
  }

  /** The map from a node's number to its children, in the order read. */
  ghost predicate Grouped(children: map<nat, seq<Row>>, list: seq<Row>) {
    forall id :: (if id in children then children[id] else []) == Children(list, id)
  }

  lemma NothingRead()
    ensures Grouped(map[], []) && Root([]) == None
  {}

  lemma OneRead(children: map<nat, seq<Row>>, list: seq<Row>, i: nat)
    requires i < |list| && Grouped(children, list[..i])
    ensures list[i].parent.None? ==> Grouped(children, list[..i + 1]) && Root(list[..i + 1]) == Some(list[i])
    ensures list[i].parent.Some? ==>
              var p := list[i].parent.value;
              Grouped(children[p := (if p in children then children[p] else []) + [list[i]]], list[..i + 1])
                  && Root(list[..i + 1]) == Root(list[..i])
  {
    assert list[..i + 1][..i] == list[..i];
  }

  method BuildNode<J(!new)>(e: Json<J>, ghost list: seq<Row>, children: map<nat, seq<Row>>, n: Row, depth: nat)
          returns (r: Option<Rule<J>>)
    requires Grouped(children, list)
    ensures r == Build(e, list, n, depth)
    decreases depth
  {
    BuildIs(e, list, n, depth);
    hide Build, BuildAll, Decoded, Children;
    if depth == 0 { return None; }
    var own := Decoded(e, n.own);
    if own.None? { return None; }
    var nodes := if n.node in children then children[n.node] else [];
    var rules: seq<Rule<J>> := [];
    BuildsNone(e, list, depth);
    assert nodes[..0] == [];
    for i := 0 to |nodes|
      invariant BuildAll(e, list, nodes[..i], depth) == Some(rules)
    {
      var child := BuildNode(e, list, children, nodes[i], depth - 1);
      BuildAllIs(e, list, nodes, i, depth);
      if child.None? {
        BuildStops(e, list, nodes, i + 1, depth);
        return None;
      }
      rules := rules + [child.value];
    }
    assert nodes[..|nodes|] == nodes;
    r := Some(Rule(own.value, rules));
  }

  lemma BuildIs<J>(e: Json<J>, list: seq<Row>, n: Row, depth: nat)
    ensures depth == 0 || Decoded(e, n.own).None? ==> Build(e, list, n, depth) == None
    ensures depth > 0 && Decoded(e, n.own).Some? ==>
              var rules := BuildAll(e, list, Children(list, n.node), depth);
              Build(e, list, n, depth) == if rules.Some? then Some(Rule(Decoded(e, n.own).value, rules.value)) else None
  {}

  lemma BuildAllIs<J>(e: Json<J>, list: seq<Row>, nodes: seq<Row>, i: nat, depth: nat)
    requires depth > 0 && i < |nodes| && BuildAll(e, list, nodes[..i], depth).Some?
    ensures var last := Build(e, list, nodes[i], depth - 1);
            BuildAll(e, list, nodes[..i + 1], depth) ==
            if last.Some? then Some(BuildAll(e, list, nodes[..i], depth).value + [last.value]) else None
  {
    assert nodes[..i + 1][..i] == nodes[..i];
  }

  lemma {:induction false} BuildStops<J>(e: Json<J>, list: seq<Row>, nodes: seq<Row>, n: nat, depth: nat)
    requires depth > 0 && n <= |nodes| && BuildAll(e, list, nodes[..n], depth).None?
    ensures BuildAll(e, list, nodes, depth).None?
    decreases |nodes|
  {
    if n == |nodes| {
      assert nodes[..n] == nodes;
    } else {
      assert nodes[..|nodes| - 1][..n] == nodes[..n];
      BuildStops(e, list, nodes[..|nodes| - 1], n, depth);
    }
  }
}
