/**
 * A facility's node tree out of a parent-pointer table: the recursive query level by level, child counts, root paths,
 * and the grid layout. Node ids are unique; nothing else is assumed about the table, so cycles may exist elsewhere.
 */
module Hierarchy {
  import opened Lists

  datatype Node = Node(id: string, parent: Option<string>, facility: string)

  function IsRootOf(facility: string): Node -> bool {
    (n: Node) => n.facility == facility && n.parent.None?
  }

  function ChildOf(id: string): Node -> bool {
    (n: Node) => n.parent == Some(id)
  }

  ghost predicate Unique(nodes: seq<Node>) {
    forall i, k | 0 <= i < k < |nodes| :: nodes[i].id != nodes[k].id
  }

  /** `JOIN tree t ON c.parent_id = t.id`: the children of every row of the working table, with multiplicity. */
  function Join(table: seq<Node>, level: seq<Node>): seq<Node> {
    if level == [] then []
    else Join(table, level[..|level| - 1]) + Filter(table, ChildOf(level[|level| - 1].id))
  }

  /** Depth d of the tree, described from below: a root of the facility, or a child of a node one level up. */
  ghost predicate InTree(table: seq<Node>, facility: string, node: Node, depth: nat)
    decreases depth
  {
    && node in table
    && if depth == 0 then node.facility == facility && node.parent.None?
       else exists p: Node :: InTree(table, facility, p, depth - 1) && node.parent == Some(p.id)
  }

  // One step of the recursion.

  lemma {:induction false} JoinMembers(table: seq<Node>, level: seq<Node>, c: Node)
    ensures c in Join(table, level) <==> c in table && exists t | t in level :: c.parent == Some(t.id)
  {
    if level != [] {
      var n := |level| - 1;
      JoinMembers(table, level[..n], c);
      FilterMembers(table, ChildOf(level[n].id));
      assert level == level[..n] + [level[n]];
    }
  }

  lemma {:induction false} FilterKeepsUnique(nodes: seq<Node>, p: Node -> bool)
    requires Unique(nodes)
    ensures Unique(Filter(nodes, p))
  {
    if nodes != [] {
      var n := |nodes| - 1;
      FilterKeepsUnique(nodes[..n], p);
      FilterMembers(nodes[..n], p);
      var front := Filter(nodes[..n], p);
      forall i | 0 <= i < |front| ensures front[i].id != nodes[n].id {
        assert front[i] in front;
        var j :| 0 <= j < n && nodes[j] == front[i];
      }
    }
  }

  lemma UniqueAppend(a: seq<Node>, b: seq<Node>)
    requires Unique(a) && Unique(b) && forall x, y | x in a && y in b :: x.id != y.id
    ensures Unique(a + b)
  {
    forall i, k | 0 <= i < k < |a + b| ensures (a + b)[i].id != (a + b)[k].id {
      if i < |a| <= k {
        assert a[i] in a && b[k - |a|] in b;
      }
    }
  }

  lemma SameIdSameNode(nodes: seq<Node>, a: Node, b: Node)
    requires Unique(nodes) && a in nodes && b in nodes && a.id == b.id
    ensures a == b
  {
    var i :| 0 <= i < |nodes| && nodes[i] == a;
    var k :| 0 <= k < |nodes| && nodes[k] == b;
  }

  /** Distinct parents have distinct children, each once. */
  lemma {:induction false} JoinIsUnique(table: seq<Node>, level: seq<Node>)
    requires Unique(table) && Unique(level)
    ensures Unique(Join(table, level))
  {
    if level != [] {
      var n := |level| - 1;
      JoinIsUnique(table, level[..n]);
      var last := Filter(table, ChildOf(level[n].id));
      FilterKeepsUnique(table, ChildOf(level[n].id));
      FilterMembers(table, ChildOf(level[n].id));
      forall x, y | x in Join(table, level[..n]) && y in last ensures x.id != y.id {
        JoinMembers(table, level[..n], x);
        var t :| t in level[..n] && x.parent == Some(t.id);
        var i :| 0 <= i < n && level[i] == t;
        if x.id == y.id {
          SameIdSameNode(table, x, y);
        }
      }
      UniqueAppend(Join(table, level[..n]), last);
    }
  }

  ghost predicate HasId(nodes: seq<Node>, id: string) {
    exists n | n in nodes :: n.id == id
  }

  /** Every node's parent, if it has one, is among `above`. */
  ghost predicate Rooted(nodes: seq<Node>, above: seq<Node>) {
    forall n | n in nodes && n.parent.Some? :: HasId(above, n.parent.value)
  }

  /** The rows so far and the working table: no node twice, all from the table, parents among the finished rows. */
  ghost predicate Growing(table: seq<Node>, rows: seq<Node>, level: seq<Node>) {
    && Unique(rows + level) && (forall n | n in rows + level :: n in table)
    && Rooted(rows + level, rows)
  }

  lemma Apart(rows: seq<Node>, level: seq<Node>, p: Node, t: Node)
    requires Unique(rows + level) && p in rows && t in level
    ensures p.id != t.id
  {
    var i :| 0 <= i < |rows| && rows[i] == p;
    var k :| 0 <= k < |level| && level[k] == t;
    assert (rows + level)[i].id != (rows + level)[|rows| + k].id;
  }

  /** A child of the working table is not there yet: its parent would have to be finished already. */
  lemma NewOnes(table: seq<Node>, rows: seq<Node>, level: seq<Node>, c: Node)
    requires Unique(table) && Growing(table, rows, level) && c in Join(table, level)
    ensures !HasId(rows + level, c.id)
  {
    JoinMembers(table, level, c);
    var t :| t in level && c.parent == Some(t.id);
    forall n | n in rows + level ensures n.id != c.id {
      if n.id == c.id {
        SameIdSameNode(table, n, c);
        assert HasId(rows, n.parent.value);
        var p :| p in rows && p.id == t.id;
        Apart(rows, level, p, t);
      }
    }
  }

  lemma NextLevel(table: seq<Node>, rows: seq<Node>, level: seq<Node>)
    requires Unique(table) && Growing(table, rows, level)
    ensures Growing(table, rows + level, Join(table, level))
  {
    var next := Join(table, level);
    assert Unique(level) by {
      forall i, k | 0 <= i < k < |level| ensures level[i].id != level[k].id {
        assert (rows + level)[|rows| + i].id != (rows + level)[|rows| + k].id;
      }
    }
    JoinIsUnique(table, level);
    forall x, y | x in rows + level && y in next ensures x.id != y.id {
      NewOnes(table, rows, level, y);
    }
    UniqueAppend(rows + level, next);
    forall n | n in (rows + level) + next && n.parent.Some? ensures HasId(rows + level, n.parent.value) {
      if n in next {
        JoinMembers(table, level, n);
      } else {
        assert HasId(rows, n.parent.value);
      }
    }
    forall n | n in (rows + level) + next ensures n in table {
      if n in next {
        JoinMembers(table, level, n);
      }
    }
  }

  lemma {:induction false} UniqueFits(nodes: seq<Node>, table: seq<Node>)
    requires Unique(nodes) && forall n | n in nodes :: n in table
    ensures |nodes| <= |table|
  {
    if nodes != [] {
      var last := nodes[|nodes| - 1];
      assert last in nodes;
      var k :| 0 <= k < |table| && table[k] == last;
      var front, rest := nodes[..|nodes| - 1], table[..k] + table[k + 1..];
      forall n | n in front ensures n in rest {
        var i :| 0 <= i < |front| && nodes[i] == n;
        assert n in table && n != last;
        var j :| 0 <= j < |table| && table[j] == n;
        assert n == if j < k then rest[j] else rest[j - 1];
      }
      UniqueFits(front, rest);
    }
  }

  // The query.

  ghost predicate IsLevel(table: seq<Node>, facility: string, level: seq<Node>, depth: nat) {
    forall n :: n in level <==> AtDepth(table, facility, n, depth)
  }

  /** The finished rows are the nodes of the depths below `depth`. */
  ghost predicate AreLevels(table: seq<Node>, facility: string, rows: seq<Node>, depth: nat) {
    forall n :: n in rows <==> exists d: nat :: d < depth && AtDepth(table, facility, n, d)
  }

  /** The same without recursion, as a handle for quantifiers. */
  ghost predicate AtDepth(table: seq<Node>, facility: string, node: Node, depth: nat) {
    InTree(table, facility, node, depth)
  }

  lemma AtDepthBelow(table: seq<Node>, facility: string, n: Node, depth: nat, next: nat)
    requires next == depth + 1
    ensures AtDepth(table, facility, n, next) <==> n in table && exists p: Node :: AtDepth(table, facility, p, depth) && n.parent == Some(p.id)
  {
    if AtDepth(table, facility, n, next) {
      var p: Node :| InTree(table, facility, p, next - 1) && n.parent == Some(p.id);
      assert AtDepth(table, facility, p, depth);
    }
    if p: Node :| n in table && AtDepth(table, facility, p, depth) && n.parent == Some(p.id) {
      assert InTree(table, facility, p, next - 1);
    }
  }

  lemma LevelBelow(table: seq<Node>, facility: string, level: seq<Node>, depth: nat, next: nat)
    requires IsLevel(table, facility, level, depth) && next == depth + 1
    ensures IsLevel(table, facility, Join(table, level), next)
  {
    forall n ensures n in Join(table, level) <==> AtDepth(table, facility, n, next) {
      JoinMembers(table, level, n);
      AtDepthBelow(table, facility, n, depth, next);
    }
  }

  lemma LevelsGrow(table: seq<Node>, facility: string, rows: seq<Node>, level: seq<Node>, depth: nat, next: nat)
    requires AreLevels(table, facility, rows, depth) && IsLevel(table, facility, level, depth) && next == depth + 1
    ensures AreLevels(table, facility, rows + level, next)
  {
    forall n ensures n in rows + level <==> exists d: nat :: d < next && AtDepth(table, facility, n, d) {
      if n in level {
        assert AtDepth(table, facility, n, depth);
      }
    }
  }

  lemma {:induction false} NothingDeeper(table: seq<Node>, facility: string, depth: nat, d: nat)
    requires IsLevel(table, facility, [], depth) && depth <= d
    ensures IsLevel(table, facility, [], d)
  {
    if depth < d {
      NothingDeeper(table, facility, depth, d - 1);
      LevelBelow(table, facility, [], d - 1, d);
    }
  }

  /** What the query returns: the facility's tree, each node once, from the table, with its parent among the rows. */
  ghost predicate IsTreeOf(table: seq<Node>, facility: string, rows: seq<Node>) {
    && Unique(rows) && (forall n | n in rows :: n in table)
    && (forall n :: n in rows <==> exists d: nat :: AtDepth(table, facility, n, d))
  }

  /** `WITH RECURSIVE`: the roots, then the children of the working table until there are none. */
  method Tree(table: seq<Node>, facility: string) returns (rows: seq<Node>)
    requires Unique(table)
    ensures IsTreeOf(table, facility, rows)
    ensures ParentsFirst(rows)
    ensures |rows| <= |table|
  {
    rows := [];
    var level := Filter(table, IsRootOf(facility));
    FilterKeepsUnique(table, IsRootOf(facility));
    FilterMembers(table, IsRootOf(facility));
    ghost var depth := 0;
    assert [] + level == level;
    while level != []
      invariant Growing(table, rows, level)
      invariant AreLevels(table, facility, rows, depth) && IsLevel(table, facility, level, depth)
      invariant ParentsFirst(rows)
      decreases |table| - |rows|
    {
      UniqueFits(rows + level, table);
      NextLevel(table, rows, level);
      LevelBelow(table, facility, level, depth, depth + 1);
      LevelsGrow(table, facility, rows, level, depth, depth + 1);
      ParentsStayFirst(rows, level);
      rows, level, depth := rows + level, Join(table, level), depth + 1;
    }
    assert rows + [] == rows;
    UniqueFits(rows, table);
    AllLevels(table, facility, rows, depth);
  }

  lemma AllLevels(table: seq<Node>, facility: string, rows: seq<Node>, depth: nat)
    requires AreLevels(table, facility, rows, depth) && IsLevel(table, facility, [], depth)
    ensures forall n :: n in rows <==> exists d: nat :: AtDepth(table, facility, n, d)
  {
    forall n, d: nat | AtDepth(table, facility, n, d) ensures n in rows {
      if d >= depth {
        NothingDeeper(table, facility, depth, d);
      }
    }
  }

  ghost predicate ParentBefore(rows: seq<Node>, k: nat)
    requires k < |rows|
  {
    rows[k].parent.Some? ==> HasId(rows[..k], rows[k].parent.value)
  }

  /** A parent comes before its children. */
  ghost predicate ParentsFirst(rows: seq<Node>) {
    forall k: nat | k < |rows| :: ParentBefore(rows, k)
  }

  lemma ParentsStayFirst(rows: seq<Node>, level: seq<Node>)
    requires ParentsFirst(rows) && Rooted(rows + level, rows)
    ensures ParentsFirst(rows + level)
  {
    forall k: nat | k < |rows + level| ensures ParentBefore(rows + level, k) {
      if k < |rows| {
        assert ParentBefore(rows, k);
        assert (rows + level)[..k] == rows[..k];
      } else if (rows + level)[k].parent.Some? {
        assert (rows + level)[k] in rows + level;
        var p :| p in rows && p.id == (rows + level)[k].parent.value;
        assert (rows + level)[..k] == rows + level[..k - |rows|];
      }
    }
  }

  // Child counts.

  function ChildCount(rows: seq<Node>, id: string): nat {
    Count(rows, ChildOf(id))
  }

  method NoChildrenYet(rows: seq<Node>) returns (count: map<string, nat>)
    ensures forall id :: id in count <==> HasId(rows, id)
    ensures forall id | id in count :: count[id] == 0
  {
    count := map[];
    for i := 0 to |rows|
      invariant forall id :: id in count <==> HasId(rows[..i], id)
      invariant forall id | id in count :: count[id] == 0
    {
      assert rows[..i + 1] == rows[..i] + [rows[i]];
      count := count[rows[i].id := 0];
    }
    assert rows[..|rows|] == rows;
  }

  lemma ChildCountSnoc(rows: seq<Node>, i: nat, id: string)
    requires i < |rows|
    ensures ChildCount(rows[..i + 1], id) == ChildCount(rows[..i], id) + (if rows[i].parent == Some(id) then 1 else 0)
  {
    assert rows[..i + 1] == rows[..i] + [rows[i]];
    CountSnoc(rows[..i], rows[i], ChildOf(id));
  }

  /** The counting loop over the rows. */
  method ChildrenCount(rows: seq<Node>) returns (count: map<string, nat>)
    ensures forall id :: id in count <==> HasId(rows, id)
    ensures forall id | id in count :: count[id] == ChildCount(rows, id)
  {
    count := NoChildrenYet(rows);
    ghost var ids := count.Keys;
    for i := 0 to |rows|
      invariant count.Keys == ids
      invariant forall id | id in count :: count[id] == ChildCount(rows[..i], id)
    {
      forall id | id in count
        ensures ChildCount(rows[..i + 1], id) == count[id] + (if rows[i].parent == Some(id) then 1 else 0)
      {
        ChildCountSnoc(rows, i, id);
      }
      if rows[i].parent.Some? && rows[i].parent.value in count {
        count := count[rows[i].parent.value := count[rows[i].parent.value] + 1];
      }
    }
    assert rows[..|rows|] == rows;
  }

  function ChildCounts(rows: seq<Node>, ids: seq<Node>): nat {
    if ids == [] then 0 else ChildCounts(rows, ids[..|ids| - 1]) + ChildCount(rows, ids[|ids| - 1].id)
  }

  function HasNoParent(): Node -> bool {
    (n: Node) => n.parent.None?
  }

  function ParentIn(nodes: seq<Node>): Node -> bool {
    (n: Node) => n.parent.Some? && exists p | p in nodes :: p.id == n.parent.value
  }

  lemma {:induction false} ChildCountsCountTheChildren(rows: seq<Node>, nodes: seq<Node>)
    requires Unique(nodes)
    ensures ChildCounts(rows, nodes) == Count(rows, ParentIn(nodes))
  {
    if nodes == [] {
      CountNone(rows, ParentIn(nodes));
    } else {
      var n := |nodes| - 1;
      var front, last := nodes[..n], nodes[n];
      ChildCountsCountTheChildren(rows, front);
      assert nodes == front + [last];
      forall p | p in front ensures p.id != last.id {
        var i :| 0 <= i < n && nodes[i] == p;
      }
      CountUnion(rows, ParentIn(front), ChildOf(last.id), ParentIn(nodes));
    }
  }

  /** Whatever order the rows of a tree come in, the parent of each is among them. */
  lemma TreeIsRooted(table: seq<Node>, facility: string, rows: seq<Node>)
    requires IsTreeOf(table, facility, rows)
    ensures Rooted(rows, rows)
  {
    forall n | n in rows && n.parent.Some? ensures HasId(rows, n.parent.value) {
      var d: nat :| AtDepth(table, facility, n, d);
      if d > 0 {
        AtDepthBelow(table, facility, n, d - 1, d);
        var p: Node :| AtDepth(table, facility, p, d - 1) && n.parent == Some(p.id);
        assert p in rows;
      }
    }
  }

  /** The child counts of a tree's rows add up to the number of rows that are not roots. */
  lemma ChildCountsAddUp(table: seq<Node>, facility: string, rows: seq<Node>)
    requires IsTreeOf(table, facility, rows)
    ensures ChildCounts(rows, rows) == |rows| - Count(rows, HasNoParent())
  {
    TreeIsRooted(table, facility, rows);
    ChildCountsCountTheChildren(rows, rows);
    CountUnion(rows, ParentIn(rows), HasNoParent(), (n: Node) => true);
    CountAll(rows, (n: Node) => true);
  }

  // Paths. A lineage is what a walk up the parents has to return: the chain of rows from the top down to the node.

  /** `by_id[id]`: the row with this id, or the number of rows if there is none. */
  function IndexOf(rows: seq<Node>, id: string): nat {
    if rows == [] then 0
    else if rows[0].id == id then 0
    else 1 + IndexOf(rows[1..], id)
  }

  predicate IsRow(rows: seq<Node>, id: string) {
    IndexOf(rows, id) < |rows|
  }

  lemma {:induction false} IndexIs(rows: seq<Node>, id: string)
    ensures IsRow(rows, id) <==> HasId(rows, id)
    ensures IsRow(rows, id) ==> rows[IndexOf(rows, id)].id == id
  {
    if rows != [] && rows[0].id != id {
      IndexIs(rows[1..], id);
      assert rows == [rows[0]] + rows[1..];
    }
  }

  lemma RowIs(rows: seq<Node>, n: Node)
    requires Unique(rows) && n in rows
    ensures IsRow(rows, n.id) && rows[IndexOf(rows, n.id)] == n
  {
    IndexIs(rows, n.id);
    SameIdSameNode(rows, rows[IndexOf(rows, n.id)], n);
  }

  function Above(rows: seq<Node>, id: string): Option<string> {
    if IsRow(rows, id) then rows[IndexOf(rows, id)].parent else None
  }

  /** Nothing to climb to: no parent, or one without a row. */
  predicate IsEnd(rows: seq<Node>, up: Option<string>) {
    up.Some? ==> !IsRow(rows, up.value)
  }

  ghost predicate IsLineage(rows: seq<Node>, id: string, path: seq<string>) {
    if !IsRow(rows, id) then path == []
    else
      && path != [] && path[|path| - 1] == id
      && (forall k | 0 <= k < |path| :: IsRow(rows, path[k]))
      && (forall k | 0 < k < |path| :: Above(rows, path[k]) == Some(path[k - 1]))
      && IsEnd(rows, Above(rows, path[0]))
  }

  /** path(n) = path(parent) + [n]. */
  lemma LineageOfChild(rows: seq<Node>, id: string, path: seq<string>)
    requires IsRow(rows, id) && path != []
    ensures IsLineage(rows, id, path + [id]) <==> Above(rows, id).Some? && IsRow(rows, Above(rows, id).value) && IsLineage(rows, Above(rows, id).value, path)
  {
    var longer, n := path + [id], |path|;
    if IsLineage(rows, id, longer) {
      assert Above(rows, longer[n]) == Some(longer[n - 1]);
      forall k | 0 <= k < n ensures IsRow(rows, path[k]) && (k > 0 ==> Above(rows, path[k]) == Some(path[k - 1])) {
        assert longer[k] == path[k] && IsRow(rows, longer[k]);
        if k > 0 {
          assert Above(rows, longer[k]) == Some(longer[k - 1]) && longer[k - 1] == path[k - 1];
        }
      }
    }
  }

  lemma {:induction false} LineageIsUnique(rows: seq<Node>, id: string, a: seq<string>, b: seq<string>)
    requires IsLineage(rows, id, a) && IsLineage(rows, id, b)
    ensures a == b
    decreases |a|
  {
    if IsRow(rows, id) {
      var x, y := a[..|a| - 1], b[..|b| - 1];
      assert a == x + [id] && b == y + [id];
      if x != [] {
        LineageOfChild(rows, id, x);
        assert y != [];
        LineageOfChild(rows, id, y);
        LineageIsUnique(rows, Above(rows, id).value, x, y);
      } else if y != [] {
        LineageOfChild(rows, id, y);
        assert false;
      }
    }
  }

  /** The walk so far: each link is the row above the one before, and `current` is above the last. */
  ghost predicate Linked(rows: seq<Node>, id: string, chain: seq<string>, current: Option<string>) {
    && (if chain == [] then current == Some(id) else chain[0] == id)
    && forall i: nat | i < |chain| :: LinkAt(rows, chain, current, i)
  }

  ghost predicate LinkAt(rows: seq<Node>, chain: seq<string>, current: Option<string>, i: nat)
    requires i < |chain|
  {
    IsRow(rows, chain[i]) && Above(rows, chain[i]) == if i + 1 < |chain| then Some(chain[i + 1]) else current
  }

  lemma LinkedSnoc(rows: seq<Node>, id: string, chain: seq<string>, current: string)
    requires Linked(rows, id, chain, Some(current)) && IsRow(rows, current)
    ensures Linked(rows, id, chain + [current], Above(rows, current))
  {
    forall i: nat | i <= |chain| ensures LinkAt(rows, chain + [current], Above(rows, current), i) {
      if i < |chain| {
        assert LinkAt(rows, chain, Some(current), i);
      }
    }
  }

  function Reversed(chain: seq<string>): (path: seq<string>)
    ensures |path| == |chain|
    ensures forall k | 0 <= k < |chain| :: path[k] == chain[|chain| - 1 - k]
  {
    if chain == [] then [] else [chain[|chain| - 1]] + Reversed(chain[..|chain| - 1])
  }

  lemma FinishedWalk(rows: seq<Node>, id: string, chain: seq<string>, current: Option<string>)
    requires Linked(rows, id, chain, current) && IsEnd(rows, current)
    ensures IsLineage(rows, id, Reversed(chain))
  {
    var path, n := Reversed(chain), |chain|;
    if chain != [] {
      forall k | 0 <= k < n ensures IsRow(rows, path[k]) && (k > 0 ==> Above(rows, path[k]) == Some(path[k - 1])) {
        assert LinkAt(rows, chain, current, n - 1 - k);
      }
      assert LinkAt(rows, chain, current, 0) && LinkAt(rows, chain, current, n - 1);
    }
  }

  /** One row up in a tree is one depth up. */
  lemma ParentRow(table: seq<Node>, facility: string, rows: seq<Node>, n: Node, depth: nat)
    requires IsTreeOf(table, facility, rows) && AtDepth(table, facility, n, depth)
    ensures n in rows && IsRow(rows, n.id) && Above(rows, n.id) == n.parent
    ensures depth == 0 <==> n.parent.None?
    ensures depth > 0 ==> exists p: Node :: p in rows && AtDepth(table, facility, p, depth - 1) && n.parent == Some(p.id)
  {
    assert n in rows;
    RowIs(rows, n);
    if depth > 0 {
      AtDepthBelow(table, facility, n, depth - 1, depth);
      var p: Node :| AtDepth(table, facility, p, depth - 1) && n.parent == Some(p.id);
      assert p in rows;
    }
  }

  /** Walking up the parents of a tree's rows, in whatever order they came; every parent is found, and the walk ends at a root. */
  method Path(ghost table: seq<Node>, ghost facility: string, rows: seq<Node>, start: nat) returns (path: seq<string>)
    requires IsTreeOf(table, facility, rows) && start < |rows|
    ensures IsLineage(rows, rows[start].id, path)
  {
    var chain: seq<string> := [];
    var current := Some(rows[start].id);
    ghost var at := rows[start];
    assert at in rows;
    ghost var depth: nat :| AtDepth(table, facility, at, depth);
    ghost var left := depth + 1;
    while current.Some?
      invariant Linked(rows, rows[start].id, chain, current)
      invariant current.Some? <==> left > 0
      invariant left > 0 ==> AtDepth(table, facility, at, left - 1) && current == Some(at.id)
      decreases left
    {
      ParentRow(table, facility, rows, at, left - 1);
      LinkedSnoc(rows, rows[start].id, chain, current.value);
      chain := chain + [current.value];
      current := rows[IndexOf(rows, current.value)].parent;
      left := left - 1;
      if left > 0 {
        at :| at in rows && AtDepth(table, facility, at, left - 1) && current == Some(at.id);
      }
    }
    FinishedWalk(rows, rows[start].id, chain, current);
    path := Reversed(chain);
  }

  /** A path is one longer than the depth of its node in the tree, and begins at a root of the facility. */
  lemma {:induction false} PathLengthIsDepth(table: seq<Node>, facility: string, rows: seq<Node>, n: Node, depth: nat, path: seq<string>)
    requires IsTreeOf(table, facility, rows) && AtDepth(table, facility, n, depth) && IsLineage(rows, n.id, path)
    ensures |path| == depth + 1
    ensures exists root | root in rows :: root.id == path[0] && root.facility == facility && root.parent.None?
    decreases depth
  {
    ParentRow(table, facility, rows, n, depth);
    var above := path[..|path| - 1];
    assert path == above + [n.id];
    if depth > 0 {
      var p: Node :| p in rows && AtDepth(table, facility, p, depth - 1) && n.parent == Some(p.id);
      ParentRow(table, facility, rows, p, depth - 1);
      assert above != [];
      LineageOfChild(rows, n.id, above);
      PathLengthIsDepth(table, facility, rows, p, depth - 1, above);
    } else if above != [] {
      LineageOfChild(rows, n.id, above);
      assert false;
    }
  }

  // Climbing from any id over a whole table, where nothing rules out a cycle of parents.

  function Ancestor(table: seq<Node>, id: string, n: nat): Option<string> {
    if n == 0 then Some(id)
    else
      var below := Ancestor(table, id, n - 1);
      if below.None? then None else Above(table, below.value)
  }

  /** The climb takes its step number n. */
  ghost predicate Climbs(table: seq<Node>, id: string, n: nat) {
    Ancestor(table, id, n).Some? && IsRow(table, Ancestor(table, id, n).value)
  }

  /** Two ancestors are the same: somewhere above, the parents form a cycle. */
  ghost predicate Repeats(table: seq<Node>, id: string) {
    exists i: nat, k: nat :: i < k && SameAncestor(table, id, i, k)
  }

  ghost predicate SameAncestor(table: seq<Node>, id: string, i: nat, k: nat) {
    Ancestor(table, id, i).Some? && Ancestor(table, id, i) == Ancestor(table, id, k)
  }

  lemma {:induction false} ClimbedBefore(table: seq<Node>, id: string, i: nat, k: nat)
    requires i < k && Ancestor(table, id, k).Some?
    ensures Climbs(table, id, i)
    decreases k
  {
    if i < k - 1 {
      ClimbedBefore(table, id, i, k - 1);
    }
  }

  lemma {:induction false} Periodic(table: seq<Node>, id: string, i: nat, k: nat, n: nat)
    requires SameAncestor(table, id, i, k)
    ensures Ancestor(table, id, i + n) == Ancestor(table, id, k + n)
  {
    if n > 0 {
      Periodic(table, id, i, k, n - 1);
    }
  }

  /** Below a cycle of parents the climb has no end. */
  lemma {:induction false} CycleHasNoEnd(table: seq<Node>, id: string, n: nat)
    requires Repeats(table, id)
    ensures Climbs(table, id, n)
  {
    var i: nat, k: nat :| i < k && SameAncestor(table, id, i, k);
    if n < k {
      ClimbedBefore(table, id, n, k);
    } else {
      CycleHasNoEnd(table, id, n - (k - i));
      Periodic(table, id, i, k, n - k);
    }
  }

  function IdsOf(table: seq<Node>): (ids: seq<string>)
    ensures |ids| == |table|
  {
    seq(|table|, k requires 0 <= k < |table| => table[k].id)
  }

  function Ancestors(table: seq<Node>, id: string, n: nat): (ids: seq<string>)
    requires forall i: nat | i < n :: Climbs(table, id, i)
    ensures |ids| == n
    ensures forall i: nat | i < n :: Some(ids[i]) == Ancestor(table, id, i)
  {
    if n == 0 then []
    else
      assert Climbs(table, id, n - 1);
      Ancestors(table, id, n - 1) + [Ancestor(table, id, n - 1).value]
  }

  /** More steps than rows: some row was passed twice. */
  lemma TooManySteps(table: seq<Node>, id: string)
    requires Climbs(table, id, |table|)
    ensures Repeats(table, id)
  {
    var n := |table| + 1;
    forall i: nat | i < n ensures Climbs(table, id, i) {
      if i < |table| {
        ClimbedBefore(table, id, i, |table|);
      }
    }
    var ids := Ancestors(table, id, n);
    forall x | x in ids ensures x in IdsOf(table) {
      var i: nat :| i < n && ids[i] == x;
      assert Climbs(table, id, i);
      IndexIs(table, x);
      assert IdsOf(table)[IndexOf(table, x)] == x;
    }
    var i: nat, k: nat := Pigeonhole(ids, IdsOf(table));
    assert SameAncestor(table, id, i, k);
  }

  lemma {:induction false} Pigeonhole(a: seq<string>, b: seq<string>) returns (i: nat, k: nat)
    requires |a| > |b| && forall x | x in a :: x in b
    ensures i < k < |a| && a[i] == a[k]
  {
    var n := |a| - 1;
    if a[n] in a[..n] {
      i :| 0 <= i < n && a[i] == a[n];
      k := n;
    } else {
      assert a[n] in b;
      var j :| 0 <= j < |b| && b[j] == a[n];
      var rest := b[..j] + b[j + 1..];
      forall x | x in a[..n] ensures x in rest {
        assert x in b && x != a[n];
        var m :| 0 <= m < |b| && b[m] == x;
        assert x == if m < j then rest[m] else rest[m - 1];
      }
      i, k := Pigeonhole(a[..n], rest);
    }
  }

  /** The climb ends exactly if it has ended after one step per row, which is exactly if no ancestor repeats. */
  lemma ClimbEndsIff(table: seq<Node>, id: string)
    ensures (exists n: nat :: !Climbs(table, id, n)) <==> !Climbs(table, id, |table|)
    ensures (exists n: nat :: !Climbs(table, id, n)) <==> !Repeats(table, id)
  {
    if Repeats(table, id) {
      forall n: nat ensures Climbs(table, id, n) {
        CycleHasNoEnd(table, id, n);
      }
    } else if Climbs(table, id, |table|) {
      TooManySteps(table, id);
    }
  }

  /** The unguarded walk of the sensor card, where it ends. */
  method ClimbPath(table: seq<Node>, node: Option<string>) returns (path: seq<string>)
    requires node.Some? ==> !Repeats(table, node.value)
    ensures if node.None? then path == [] else IsLineage(table, node.value, path)
  {
    if node.None? {
      return [];
    }
    var chain: seq<string> := [];
    var current := node;
    ClimbEndsIff(table, node.value);
    while current.Some? && IsRow(table, current.value)
      invariant Linked(table, node.value, chain, current)
      invariant current == Ancestor(table, node.value, |chain|)
      invariant |chain| <= |table|
      decreases |table| - |chain|
    {
      assert Climbs(table, node.value, |chain|);
      LinkedSnoc(table, node.value, chain, current.value);
      chain := chain + [current.value];
      current := table[IndexOf(table, current.value)].parent;
    }
    FinishedWalk(table, node.value, chain, current);
    path := Reversed(chain);
  }

  /** A node has a lineage exactly if its climb ends, so `ClimbPath` asks for no more than that its answer exists. */
  lemma LineageExistsIff(table: seq<Node>, id: string)
    ensures (exists path :: IsLineage(table, id, path)) <==> !Repeats(table, id)
  {
    if path :| IsLineage(table, id, path) {
      LineageEndsTheClimb(table, id, path);
      ClimbEndsIff(table, id);
    }
    if !Repeats(table, id) {
      var steps := LastStep(table, id);
      AncestorsAreLinked(table, id, steps);
      FinishedWalk(table, id, Ancestors(table, id, steps), Ancestor(table, id, steps));
    }
  }

  lemma {:induction false} LineageEndsTheClimb(table: seq<Node>, id: string, path: seq<string>)
    requires IsLineage(table, id, path)
    ensures !Climbs(table, id, |path|)
    decreases |path|
  {
    if IsRow(table, id) {
      var n := |path| - 1;
      LineageStep(table, id, path, n);
    }
  }

  lemma {:induction false} LineageStep(table: seq<Node>, id: string, path: seq<string>, i: nat)
    requires IsLineage(table, id, path) && i < |path|
    ensures Ancestor(table, id, i) == Some(path[|path| - 1 - i])
  {
    if i > 0 {
      LineageStep(table, id, path, i - 1);
    }
  }

  lemma LastStep(table: seq<Node>, id: string) returns (steps: nat)
    requires !Repeats(table, id)
    ensures !Climbs(table, id, steps) && forall i: nat | i < steps :: Climbs(table, id, i)
  {
    ClimbEndsIff(table, id);
    steps := 0;
    while Climbs(table, id, steps)
      invariant steps <= |table| && forall i: nat | i < steps :: Climbs(table, id, i)
      decreases |table| - steps
    {
      steps := steps + 1;
    }
  }

  lemma {:induction false} AncestorsAreLinked(table: seq<Node>, id: string, n: nat)
    requires forall i: nat | i < n :: Climbs(table, id, i)
    ensures Linked(table, id, Ancestors(table, id, n), Ancestor(table, id, n))
  {
    if n > 0 {
      assert Climbs(table, id, n - 1);
      AncestorsAreLinked(table, id, n - 1);
      LinkedSnoc(table, id, Ancestors(table, id, n - 1), Ancestor(table, id, n - 1).value);
    }
  }

  lemma SameRowInTable(table: seq<Node>, facility: string, rows: seq<Node>, id: string)
    requires Unique(table) && IsTreeOf(table, facility, rows) && IsRow(rows, id)
    ensures IsRow(table, id) && Above(table, id) == Above(rows, id)
    ensures IsEnd(rows, Above(rows, id)) ==> Above(rows, id).None?
  {
    IndexIs(rows, id);
    var n := rows[IndexOf(rows, id)];
    assert n in rows;
    RowIs(table, n);
    TreeIsRooted(table, facility, rows);
    if n.parent.Some? {
      IndexIs(rows, n.parent.value);
    }
  }

  /** Below a facility's roots the unguarded climb ends, and the sensor card shows the path that the hierarchy shows. */
  lemma TreePathIsTheClimb(table: seq<Node>, facility: string, rows: seq<Node>, id: string, path: seq<string>)
    requires Unique(table) && IsTreeOf(table, facility, rows) && IsRow(rows, id) && IsLineage(rows, id, path)
    ensures !Repeats(table, id) && IsLineage(table, id, path)
  {
    forall k | 0 <= k < |path| ensures IsRow(table, path[k]) && Above(table, path[k]) == Above(rows, path[k]) {
      SameRowInTable(table, facility, rows, path[k]);
    }
    SameRowInTable(table, facility, rows, path[0]);
    assert IsRow(table, path[|path| - 1]);
    assert IsLineage(table, id, path);
    LineageExistsIff(table, id);
  }

  // The grid layout.

  datatype Point = Point(column: nat, depth: nat)

  function AtRow(depth: int): int -> bool {
    (d: int) => d == depth
  }

  /** One column counter per depth. */
  method Layout(depths: seq<nat>) returns (points: seq<Point>)
    ensures |points| == |depths|
    ensures forall k: nat | k < |depths| :: points[k] == PlaceOf(depths, k)
  {
    var counters: map<nat, nat> := map[];
    points := [];
    for i := 0 to |depths|
      invariant |points| == i
      invariant forall k: nat | k < i :: points[k] == PlaceOf(depths, k)
      invariant forall d: nat :: (if d in counters then counters[d] else 0) == Count(depths[..i], AtRow(d))
    {
      var depth := depths[i];
      var column := if depth in counters then counters[depth] else 0;
      counters := counters[depth := column + 1];
      points := points + [Point(column, depth)];
      assert depths[..i + 1][..i] == depths[..i];
    }
  }

  /** The column is the number of earlier nodes of that depth. */
  function PlaceOf(depths: seq<nat>, k: nat): Point
    requires k < |depths|
  {
    Point(Count(depths[..k], AtRow(depths[k])), depths[k])
  }

  lemma {:induction false} CountGrows(depths: seq<nat>, i: nat, k: nat, depth: nat)
    requires i <= k <= |depths|
    ensures Count(depths[..i], AtRow(depth)) <= Count(depths[..k], AtRow(depth))
  {
    if i < k {
      CountGrows(depths, i, k - 1, depth);
      assert depths[..k][..k - 1] == depths[..k - 1];
    }
  }

  /** No two nodes share a point. */
  lemma PointsAreDistinct(depths: seq<nat>, i: nat, k: nat)
    requires i < k < |depths|
    ensures PlaceOf(depths, i) != PlaceOf(depths, k)
  {
    assert depths[..i + 1][..i] == depths[..i];
    CountGrows(depths, i + 1, k, depths[i]);
  }

  /** At each depth the columns are 0 up to the number of its nodes, without a gap. */
  lemma {:induction false} ColumnsAreFilled(depths: seq<nat>, depth: nat, column: nat)
    ensures column < Count(depths, AtRow(depth)) <==> exists k: nat :: k < |depths| && PlaceOf(depths, k) == Point(column, depth)
  {
    if depths != [] {
      var n := |depths| - 1;
      ColumnsAreFilled(depths[..n], depth, column);
      forall k: nat | k < n ensures PlaceOf(depths[..n], k) == PlaceOf(depths, k) {
        assert depths[..n][..k] == depths[..k];
      }
      if k: nat :| k < n && PlaceOf(depths[..n], k) == Point(column, depth) {
        assert PlaceOf(depths, k) == Point(column, depth);
      }
      assert PlaceOf(depths, n) == Point(Count(depths[..n], AtRow(depths[n])), depths[n]);
    }
  }
}
