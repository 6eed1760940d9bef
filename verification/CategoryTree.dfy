/// Building the category tree: sorted rows go in, nodes linked by pointers come out.

module CategoryTree {
  import opened Options
  import opened Ancestry

  /** A category row as the query returns it. */
  datatype Row = Row(id: nat, parent: Option<nat>, sortOrder: int)

  /** A list of trees: the first tree's row and children, and the trees after it. */
  datatype Forest = Empty | Tree(row: Row, kids: Forest, rest: Forest)

  // ---------- rows ----------

  predicate DistinctIds(rows: seq<Row>) {
    forall i, j :: 0 <= i < j < |rows| ==> rows[i].id != rows[j].id
  }

  function Ids(rows: seq<Row>): set<nat> {
    set r | r in rows :: r.id
  }

  /** Whether the row asks for the parent `p`; a parent id of zero asks for none. */
  predicate AsksFor(r: Row, p: nat) {
    r.parent == Some(p) && p != 0
  }

  /** The rows that ask for the parent `p`, in row order. */
  function Kids(rows: seq<Row>, p: nat): seq<Row> {
    if rows == [] then []
    else
      var last := |rows| - 1;
      Kids(rows[..last], p) + if AsksFor(rows[last], p) then [rows[last]] else []
  }

  /** A row is a root when its parent is nil, zero, or not among `ids`. */
  predicate IsRoot(r: Row, ids: set<nat>) {
    r.parent.None? || r.parent.value == 0 || r.parent.value !in ids
  }

  function RootsAmong(rows: seq<Row>, ids: set<nat>): seq<Row> {
    if rows == [] then []
    else
      var last := |rows| - 1;
      RootsAmong(rows[..last], ids) + if IsRoot(rows[last], ids) then [rows[last]] else []
  }

  function Roots(rows: seq<Row>): seq<Row> {
    RootsAmong(rows, Ids(rows))
  }

  /** The parent links of the rows. */
  function ParentsOf(rows: seq<Row>): Parents
    requires DistinctIds(rows)
  {
    map i: nat | 0 <= i < |rows| :: rows[i].id := if rows[i].parent == Some(0) then None else rows[i].parent
  }

  // ---------- the recursive forest ----------

  /** `f` is the list of trees that the rows `tops` head, each with all rows below it. */
  predicate IsForest(rows: seq<Row>, tops: seq<Row>, f: Forest)
    decreases f
  {
    match f
    case Empty => tops == []
    case Tree(r, kids, rest) =>
      tops != [] && tops[0] == r && IsForest(rows, Kids(rows, r.id), kids) && IsForest(rows, tops[1..], rest)
  }

  /** There is at most one such list. */
  lemma {:induction false} ForestIsUnique(rows: seq<Row>, tops: seq<Row>, f: Forest, g: Forest)
    requires IsForest(rows, tops, f) && IsForest(rows, tops, g)
    ensures f == g
    decreases f
  {
    if f.Tree? {
      ForestIsUnique(rows, Kids(rows, f.row.id), f.kids, g.kids);
      ForestIsUnique(rows, tops[1..], f.rest, g.rest);
    }
  }

  /** All rows of a forest, each tree's row before its children. */
  function Flatten(f: Forest): seq<Row> {
    match f
    case Empty => []
    case Tree(r, kids, rest) => [r] + Flatten(kids) + Flatten(rest)
  }

  // ---------- facts about rows ----------

  lemma {:induction false} KidsAre(rows: seq<Row>, p: nat, x: Row)
    requires DistinctIds(rows)
    ensures multiset(Kids(rows, p))[x] == if x in rows && AsksFor(x, p) then 1 else 0
    decreases |rows|
  {
    if rows == [] {
    } else {
      var last := |rows| - 1;
      KidsAre(rows[..last], p, x);
      assert rows == rows[..last] + [rows[last]];
    }
  }

  lemma {:induction false} RootsAre(rows: seq<Row>, ids: set<nat>, x: Row)
    requires DistinctIds(rows)
    ensures multiset(RootsAmong(rows, ids))[x] == if x in rows && IsRoot(x, ids) then 1 else 0
    decreases |rows|
  {
    if rows == [] {
    } else {
      var last := |rows| - 1;
      RootsAre(rows[..last], ids, x);
      assert rows == rows[..last] + [rows[last]];
    }
  }

  lemma KidsAreRows(rows: seq<Row>, p: nat)
    requires DistinctIds(rows)
    ensures forall x :: x in Kids(rows, p) <==> x in rows && AsksFor(x, p)
  {
    forall x ensures x in Kids(rows, p) <==> x in rows && AsksFor(x, p) {
      KidsAre(rows, p, x);
      assert x in Kids(rows, p) <==> x in multiset(Kids(rows, p));
    }
  }

  lemma RootsAreRows(rows: seq<Row>)
    requires DistinctIds(rows)
    ensures forall x :: x in Roots(rows) <==> x in rows && IsRoot(x, Ids(rows))
  {
    forall x ensures x in Roots(rows) <==> x in rows && IsRoot(x, Ids(rows)) {
      RootsAre(rows, Ids(rows), x);
      assert x in Roots(rows) <==> x in multiset(Roots(rows));
    }
  }

  lemma ParentLink(rows: seq<Row>, x: Row)
    requires DistinctIds(rows) && x in rows
    ensures x.id in ParentsOf(rows)
    ensures ParentsOf(rows)[x.id] == if x.parent == Some(0) then None else x.parent
  {
    var i :| 0 <= i < |rows| && rows[i] == x;
    assert rows[i].id in ParentsOf(rows);
  }

  // ---------- every row occurs exactly once ----------

  function Occurs(f: Forest, x: Row): nat {
    match f
    case Empty => 0
    case Tree(r, kids, rest) => (if r == x then 1 else 0) + Occurs(kids, x) + Occurs(rest, x)
  }

  lemma {:induction false} FlattenCounts(f: Forest, x: Row)
    ensures multiset(Flatten(f))[x] == Occurs(f, x)
  {
    if f.Tree? {
      FlattenCounts(f.kids, x);
      FlattenCounts(f.rest, x);
    }
  }

  /** A row occurs once for each time it heads a tree, and once below each occurrence of its parent. */
  lemma {:induction false} OccursUnderParent(rows: seq<Row>, tops: seq<Row>, f: Forest, x: Row, parent: Row)
    requires DistinctIds(rows) && IsForest(rows, tops, f) && (forall t :: t in tops ==> t in rows)
    requires x in rows && parent in rows && AsksFor(x, parent.id)
    ensures Occurs(f, x) == multiset(tops)[x] + Occurs(f, parent)
    decreases f
  {
    hide Kids, DistinctIds;
    if f.Tree? {
      KidsAreRows(rows, f.row.id);
      KidsAre(rows, f.row.id, x);
      assert tops == [tops[0]] + tops[1..];
      assert tops[0] in rows;
      OccursUnderParent(rows, Kids(rows, f.row.id), f.kids, x, parent);
      OccursUnderParent(rows, tops[1..], f.rest, x, parent);
      assert AsksFor(x, f.row.id) <==> f.row == parent by {
        SameIdSameRow(rows, f.row, parent);
      }
    }
  }

  lemma SameIdSameRow(rows: seq<Row>, x: Row, y: Row)
    requires DistinctIds(rows) && x in rows && y in rows
    ensures x.id == y.id ==> x == y
  {}

  /** A row without a parent among the rows occurs only where it heads a tree. */
  lemma {:induction false} OccursAtTop(rows: seq<Row>, tops: seq<Row>, f: Forest, x: Row)
    requires DistinctIds(rows) && IsForest(rows, tops, f) && (forall t :: t in tops ==> t in rows)
    requires x in rows ==> IsRoot(x, Ids(rows))
    ensures Occurs(f, x) == multiset(tops)[x]
    decreases f
  {
    if f.Tree? {
      KidsAreRows(rows, f.row.id);
      KidsAre(rows, f.row.id, x);
      assert tops == [tops[0]] + tops[1..];
      assert tops[0] in rows && tops[0].id in Ids(rows);
      OccursAtTop(rows, Kids(rows, f.row.id), f.kids, x);
      OccursAtTop(rows, tops[1..], f.rest, x);
    }
  }

  lemma ParentRow(rows: seq<Row>, x: Row, n: nat) returns (parent: Row)
    requires DistinctIds(rows) && x in rows && !IsRoot(x, Ids(rows)) && EndsBy(ParentsOf(rows), x.id, n)
    ensures parent in rows && AsksFor(x, parent.id) && n > 0 && EndsBy(ParentsOf(rows), parent.id, n - 1)
  {
    parent :| parent in rows && parent.id == x.parent.value;
    ParentLink(rows, x);
  }

  lemma {:induction false} OccursOnce(rows: seq<Row>, f: Forest, x: Row, n: nat)
    requires DistinctIds(rows) && IsForest(rows, Roots(rows), f)
    requires x in rows && EndsBy(ParentsOf(rows), x.id, n)
    ensures Occurs(f, x) == 1
    decreases n
  {
    hide IsForest, Occurs, RootsAmong, Kids, DistinctIds, Chain, EndsBy, ParentsOf;
    RootsAreRows(rows);
    RootsAre(rows, Ids(rows), x);
    if IsRoot(x, Ids(rows)) {
      OccursAtTop(rows, Roots(rows), f, x);
    } else {
      var parent := ParentRow(rows, x, n);
      OccursOnce(rows, f, parent, n - 1);
      OccursUnderParent(rows, Roots(rows), f, x, parent);
    }
  }

  /** Rows that occur in a forest have ancestor chains that end. */
  lemma {:induction false} OccurringEnds(rows: seq<Row>, tops: seq<Row>, f: Forest, x: Row)
    requires DistinctIds(rows) && IsForest(rows, tops, f)
    requires forall t :: t in tops ==> t in rows && Ends(ParentsOf(rows), t.id)
    requires Occurs(f, x) > 0
    ensures Ends(ParentsOf(rows), x.id)
    decreases f
  {
    if Occurs(f.kids, x) > 0 {
      KidsAreRows(rows, f.row.id);
      forall t | t in Kids(rows, f.row.id) ensures Ends(ParentsOf(rows), t.id) {
        assert tops[0] in tops;
        var n: nat :| EndsBy(ParentsOf(rows), f.row.id, n);
        ParentLink(rows, t);
        assert EndsBy(ParentsOf(rows), t.id, n + 1);
      }
      OccurringEnds(rows, Kids(rows, f.row.id), f.kids, x);
    } else if Occurs(f.rest, x) > 0 {
      OccurringEnds(rows, tops[1..], f.rest, x);
    } else {
      assert tops[0] in tops;
    }
  }

  lemma RootEnds(rows: seq<Row>, x: Row)
    requires DistinctIds(rows) && x in rows && IsRoot(x, Ids(rows))
    ensures Ends(ParentsOf(rows), x.id)
  {
    ParentLink(rows, x);
    if x.parent.Some? && x.parent.value != 0 {
      assert ParentsOf(rows).Keys == Ids(rows);
    }
    assert EndsBy(ParentsOf(rows), x.id, 3);
  }

  lemma {:induction false} RowOnce(rows: seq<Row>, x: Row)
    requires DistinctIds(rows) && x in rows
    ensures multiset(rows)[x] == 1
    decreases |rows|
  {
    var last := |rows| - 1;
    assert rows == rows[..last] + [rows[last]];
    if x in rows[..last] {
      RowOnce(rows[..last], x);
    }
  }

  lemma AcyclicShowsAll(rows: seq<Row>, f: Forest)
    requires DistinctIds(rows) && IsForest(rows, Roots(rows), f) && Acyclic(ParentsOf(rows))
    ensures multiset(Flatten(f)) == multiset(rows)
  {
    hide IsForest, Occurs, RootsAmong, Kids, Flatten, Chain, IsRoot;
    RootsAreRows(rows);
    forall x ensures multiset(Flatten(f))[x] == multiset(rows)[x] {
      FlattenCounts(f, x);
      if x in rows {
        ParentLink(rows, x);
        var n: nat :| EndsBy(ParentsOf(rows), x.id, n);
        OccursOnce(rows, f, x, n);
        RowOnce(rows, x);
      } else {
        OccursAtTop(rows, Roots(rows), f, x);
        assert x !in multiset(Roots(rows));
        assert x !in multiset(rows);
      }
    }
  }

  lemma AllShownIsAcyclic(rows: seq<Row>, f: Forest)
    requires DistinctIds(rows) && IsForest(rows, Roots(rows), f) && multiset(Flatten(f)) == multiset(rows)
    ensures Acyclic(ParentsOf(rows))
  {
    hide IsForest, Occurs, RootsAmong, Kids, Flatten, Chain, IsRoot;
    RootsAreRows(rows);
    forall t | t in Roots(rows) ensures Ends(ParentsOf(rows), t.id) {
      RootEnds(rows, t);
    }
    forall id | id in ParentsOf(rows) ensures Ends(ParentsOf(rows), id) {
      var x :| x in rows && x.id == id;
      assert x in multiset(rows);
      FlattenCounts(f, x);
      OccurringEnds(rows, Roots(rows), f, x);
    }
  }

  /** The forest over the roots shows each row exactly once, precisely when no row is on a cycle. */
  lemma ForestShowsAllRows(rows: seq<Row>, f: Forest)
    requires DistinctIds(rows) && IsForest(rows, Roots(rows), f)
    ensures multiset(Flatten(f)) == multiset(rows) <==> Acyclic(ParentsOf(rows))
  {
    hide *;
    if Acyclic(ParentsOf(rows)) {
      AcyclicShowsAll(rows, f);
    } else if multiset(Flatten(f)) == multiset(rows) {
      AllShownIsAcyclic(rows, f);
    }
  }

  // ---------- the forest exists ----------

  lemma {:induction false} ForestExists(rows: seq<Row>, tops: seq<Row>, bound: nat, depth: nat) returns (f: Forest)
    requires DistinctIds(rows)
    requires forall id :: id in ParentsOf(rows) && Ends(ParentsOf(rows), id) ==> EndsBy(ParentsOf(rows), id, bound)
    requires forall t :: t in tops ==>
      t in rows && Ends(ParentsOf(rows), t.id) && |Chain(ParentsOf(rows), t.id, bound)| >= depth
    ensures IsForest(rows, tops, f)
    decreases bound - depth, |tops|
  {
    if tops == [] {
      f := Empty;
    } else {
      var r := tops[0];
      var m := ParentsOf(rows);
      ParentLink(rows, r);
      KidsAreRows(rows, r.id);
      assert EndsBy(m, r.id, bound);
      forall t | t in Kids(rows, r.id) ensures Ends(m, t.id) && |Chain(m, t.id, bound)| >= depth + 1 {
        ParentLink(rows, t);
        assert EndsBy(m, t.id, bound + 1);
        EndedChain(m, t.id, bound, bound + 1);
      }
      var kids := ForestExists(rows, Kids(rows, r.id), bound, depth + 1);
      var rest := ForestExists(rows, tops[1..], bound, depth);
      f := Tree(r, kids, rest);
    }
  }

  /** On any rows the recursive forest over the roots exists. */
  lemma RootForest(rows: seq<Row>) returns (f: Forest)
    requires DistinctIds(rows)
    ensures IsForest(rows, Roots(rows), f)
  {
    RootsAreRows(rows);
    var m := ParentsOf(rows);
    var bound := CommonBound(m, set id | id in m && Ends(m, id));
    forall t | t in Roots(rows) ensures Ends(m, t.id) {
      RootEnds(rows, t);
    }
    f := ForestExists(rows, Roots(rows), bound, 0);
  }

  // ---------- sibling order ----------

  predicate Before(x: Row, y: Row) {
    x.sortOrder < y.sortOrder || (x.sortOrder == y.sortOrder && x.id < y.id)
  }

  /** By (sort_order, id), the order of the query. */
  predicate InOrder(rows: seq<Row>) {
    forall i, j :: 0 <= i < j < |rows| ==> Before(rows[i], rows[j])
  }

  function Tops(f: Forest): seq<Row> {
    match f
    case Empty => []
    case Tree(r, _, rest) => [r] + Tops(rest)
  }

  /** At every level, siblings are in order. */
  predicate SiblingsInOrder(f: Forest) {
    InOrder(Tops(f)) &&
    match f
    case Empty => true
    case Tree(_, kids, rest) => SiblingsInOrder(kids) && SiblingsInOrder(rest)
  }

  lemma AppendInOrder(some: seq<Row>, rows: seq<Row>, take: bool)
    requires rows != [] && InOrder(rows) && InOrder(some) && forall x :: x in some ==> x in rows[..|rows| - 1]
    ensures var more := some + if take then [rows[|rows| - 1]] else [];
      InOrder(more) && forall x :: x in more ==> x in rows
  {
    var last := |rows| - 1;
    forall i | 0 <= i < |some| ensures Before(some[i], rows[last]) && some[i] in rows {
      assert some[i] in some;
      var j :| 0 <= j < last && rows[..last][j] == some[i];
    }
  }

  lemma {:induction false} KidsInOrder(rows: seq<Row>, p: nat)
    requires InOrder(rows)
    ensures InOrder(Kids(rows, p)) && forall x :: x in Kids(rows, p) ==> x in rows
    decreases |rows|
  {
    if rows == [] {
    } else {
      var last := |rows| - 1;
      KidsInOrder(rows[..last], p);
      AppendInOrder(Kids(rows[..last], p), rows, AsksFor(rows[last], p));
      hide InOrder, AsksFor;
    }
  }

  lemma {:induction false} RootsInOrder(rows: seq<Row>, ids: set<nat>)
    requires InOrder(rows)
    ensures InOrder(RootsAmong(rows, ids)) && forall x :: x in RootsAmong(rows, ids) ==> x in rows
    decreases |rows|
  {
    if rows == [] {
    } else {
      var last := |rows| - 1;
      RootsInOrder(rows[..last], ids);
      AppendInOrder(RootsAmong(rows[..last], ids), rows, IsRoot(rows[last], ids));
      hide InOrder, IsRoot;
    }
  }

  lemma {:induction false} ForestKeepsOrder(rows: seq<Row>, tops: seq<Row>, f: Forest)
    requires IsForest(rows, tops, f) && InOrder(rows) && InOrder(tops)
    ensures Tops(f) == tops && SiblingsInOrder(f)
    decreases f
  {
    if f.Tree? {
      KidsInOrder(rows, f.row.id);
      ForestKeepsOrder(rows, Kids(rows, f.row.id), f.kids);
      ForestKeepsOrder(rows, tops[1..], f.rest);
    }
  }

  // ---------- linking nodes ----------

  class Node {
    const row: Row
    var children: seq<Node>

    constructor (row: Row)
      ensures this.row == row && children == []
    {
      this.row, children := row, [];
    }
  }

  /** `ns` are the nodes of the given rows, in order. */
  predicate AreNodesOf(ns: seq<Node>, nodes: map<nat, Node>, rows: seq<Row>) {
    |ns| == |rows| && forall i :: 0 <= i < |rows| ==> rows[i].id in nodes && ns[i] == nodes[rows[i].id]
  }

  lemma AppendNode(ns: seq<Node>, nodes: map<nat, Node>, rows: seq<Row>, r: Row)
    requires AreNodesOf(ns, nodes, rows) && r.id in nodes
    ensures AreNodesOf(ns + [nodes[r.id]], nodes, rows + [r])
  {}

  /** The pointer graph below `ns` reads as the forest `f`. */
  ghost predicate Shows(ns: seq<Node>, f: Forest, heap: set<Node>)
    reads heap
    decreases f
  {
    match f
    case Empty => ns == []
    case Tree(r, kids, rest) =>
      && ns != [] && ns[0] in heap && ns[0].row == r
      && Shows(ns[0].children, kids, heap)
      && Shows(ns[1..], rest, heap)
  }

  /** Every node points to the nodes of its kids among the rows `done`. */
  ghost predicate Linked(rows: seq<Row>, done: seq<Row>, nodes: map<nat, Node>)
    reads nodes.Values
  {
    forall r :: r in rows ==>
      r.id in nodes && nodes[r.id].row == r && AreNodesOf(nodes[r.id].children, nodes, Kids(done, r.id))
  }

  lemma {:induction false} LinkedShows(rows: seq<Row>, tops: seq<Row>, f: Forest, nodes: map<nat, Node>, ns: seq<Node>)
    requires DistinctIds(rows) && Linked(rows, rows, nodes)
    requires IsForest(rows, tops, f) && (forall t :: t in tops ==> t in rows) && AreNodesOf(ns, nodes, tops)
    ensures Shows(ns, f, nodes.Values)
    decreases f
  {
    if f.Tree? {
      KidsAreRows(rows, f.row.id);
      assert tops[0] in rows;
      LinkedShows(rows, Kids(rows, f.row.id), f.kids, nodes, ns[0].children);
      LinkedShows(rows, tops[1..], f.rest, nodes, ns[1..]);
    }
  }

  // ---------- ListTree ----------

  ghost predicate NoSharing(nodes: map<nat, Node>) {
    forall x, y :: x in nodes && y in nodes && x != y ==> nodes[x] != nodes[y]
  }

  /** First pass: one node for each row, keyed by id. */
  method MakeNodes(rows: seq<Row>) returns (nodes: map<nat, Node>)
    requires DistinctIds(rows)
    ensures nodes.Keys == Ids(rows) && (forall x :: x in nodes ==> fresh(nodes[x]))
    ensures forall r :: r in rows ==> nodes[r.id].row == r && nodes[r.id].children == []
    ensures NoSharing(nodes)
  {
    nodes := map[];
    for i := 0 to |rows|
      invariant nodes.Keys == Ids(rows[..i]) && (forall x :: x in nodes ==> fresh(nodes[x]))
      invariant forall r :: r in rows[..i] ==> nodes[r.id].row == r && nodes[r.id].children == []
      invariant NoSharing(nodes)
    {
      var node := new Node(rows[i]);
      assert rows[..i + 1] == rows[..i] + [rows[i]];
      nodes := nodes[rows[i].id := node];
    }
    assert rows[..|rows|] == rows;
  }

  lemma PrefixKids(rows: seq<Row>, i: nat, p: nat)
    requires i < |rows|
    ensures Kids(rows[..i + 1], p) == Kids(rows[..i], p) + if AsksFor(rows[i], p) then [rows[i]] else []
  {
    assert rows[..i + 1][..i] == rows[..i];
  }

  lemma PrefixRoots(rows: seq<Row>, i: nat, ids: set<nat>)
    requires i < |rows|
    ensures RootsAmong(rows[..i + 1], ids)
            == RootsAmong(rows[..i], ids) + if IsRoot(rows[i], ids) then [rows[i]] else []
  {
    assert rows[..i + 1][..i] == rows[..i];
  }

  /** Append a node to the children of its parent, if that is among the nodes. */
  method AppendToParent(row: Row, nodes: map<nat, Node>) returns (found: bool)
    requires row.id in nodes
    requires NoSharing(nodes)
    modifies nodes.Values
    ensures found <==> !IsRoot(row, nodes.Keys)
    ensures forall x :: x in nodes ==>
      nodes[x].children == old(nodes[x].children) + if AsksFor(row, x) then [nodes[row.id]] else []
  {
    if row.parent.Some? && row.parent.value != 0 && row.parent.value in nodes {
      var parent := nodes[row.parent.value];
      parent.children := parent.children + [nodes[row.id]];
      return true;
    }
    return false;
  }

  /** One turn of the second pass: the node of row `i` goes below its parent. */
  method LinkNode(rows: seq<Row>, i: nat, nodes: map<nat, Node>) returns (found: bool)
    requires i < |rows| && NoSharing(nodes) && Linked(rows, rows[..i], nodes)
    modifies nodes.Values
    ensures Linked(rows, rows[..i + 1], nodes)
    ensures found <==> !IsRoot(rows[i], nodes.Keys)
  {
    hide NoSharing, Kids, IsRoot, AsksFor;
    label Before:
    assert rows[i] in rows;
    found := AppendToParent(rows[i], nodes);
    forall r | r in rows
      ensures r.id in nodes && nodes[r.id].row == r
      ensures AreNodesOf(nodes[r.id].children, nodes, Kids(rows[..i + 1], r.id))
    {
      PrefixKids(rows, i, r.id);
      assert AreNodesOf(old@Before(nodes[r.id].children), nodes, Kids(rows[..i], r.id));
    }
  }

  /** Second pass: put each node below its parent, or among the roots. */
  method LinkNodes(rows: seq<Row>, nodes: map<nat, Node>) returns (roots: seq<Node>)
    requires nodes.Keys == Ids(rows) && NoSharing(nodes)
    requires forall r :: r in rows ==> nodes[r.id].row == r && nodes[r.id].children == []
    modifies nodes.Values
    ensures Linked(rows, rows, nodes) && AreNodesOf(roots, nodes, Roots(rows))
  {
    roots := [];
    assert Linked(rows, rows[..0], nodes);
    assert AreNodesOf(roots, nodes, RootsAmong(rows[..0], nodes.Keys));
    for i := 0 to |rows|
      invariant Linked(rows, rows[..i], nodes)
      invariant AreNodesOf(roots, nodes, RootsAmong(rows[..i], nodes.Keys))
    {
      PrefixRoots(rows, i, nodes.Keys);
      assert rows[i] in rows && rows[i].id in nodes;
      hide NoSharing, Linked, RootsAmong, IsRoot, Ids, AreNodesOf;
      var found := LinkNode(rows, i, nodes);
      if !found {
        AppendNode(roots, nodes, RootsAmong(rows[..i], nodes.Keys), rows[i]);
        roots := roots + [nodes[rows[i].id]];
      }
    }
    assert rows[..|rows|] == rows;
  }

  /** The nodes that ListTree returns read as the recursive forest over the roots, siblings in
      (sort_order, id) order. It shows every row exactly once, precisely when no row is on a cycle. */
  method ListTree(rows: seq<Row>) returns (roots: seq<Node>, nodes: set<Node>)
    requires DistinctIds(rows) && InOrder(rows)
    ensures exists f :: Shows(roots, f, nodes) && IsForest(rows, Roots(rows), f) && SiblingsInOrder(f)
                        && (multiset(Flatten(f)) == multiset(rows) <==> Acyclic(ParentsOf(rows)))
  {
    var byId := MakeNodes(rows);
    roots := LinkNodes(rows, byId);
    nodes := byId.Values;
    ghost var f := RootForest(rows);
    RootsAreRows(rows);
    RootsInOrder(rows, Ids(rows));
    LinkedShows(rows, Roots(rows), f, byId, roots);
    ForestShowsAllRows(rows, f);
    ForestKeepsOrder(rows, Roots(rows), f);
  }
}
