/** Reading the one root catalog out of a disc image's directory graph. */
module XisoCatalog {
  import opened Text

  type byte = x: int | 0 <= x < 256

  datatype Error = OutsideImage | NotXiso | RootTooLarge | BadGraph | BadEntry | AmbiguousCatalog | NoCatalog

  datatype Result = Found(bytes: seq<byte>) | Failure(error: Error)

  const SECTOR: nat := 2048
  const LIMIT: nat := 1024 * 1024
  const MAX_NODES: nat := 65536
  const DIRECTORY_FLAG: nat := 0x10

  function Ascii(s: string): (r: seq<byte>)
    requires forall i :: 0 <= i < |s| ==> s[i] < '\U{80}'
    ensures |r| == |s|
  {
    seq(|s|, i requires 0 <= i < |s| => s[i] as int)
  }

  function LowerByte(b: byte): byte {
    if 65 <= b <= 90 then b + 32 else b
  }

  function Lower(s: seq<byte>): seq<byte> {
    seq(|s|, i requires 0 <= i < |s| => LowerByte(s[i]))
  }

  // ----- the image -----

  function Span(iso: seq<byte>, offset: nat, size: nat): Option<seq<byte>> {
    if offset + size > |iso| then None else Some(iso[offset..offset + size])
  }

  function Le16(s: seq<byte>, at: nat): nat
    requires at + 2 <= |s|
  {
    var low: int, high: int := s[at], s[at + 1];
    low + 256 * high
  }

  function Le32(s: seq<byte>, at: nat): nat
    requires at + 4 <= |s|
  {
    Le16(s, at) + 65536 * Le16(s, at + 2)
  }

  /** A directory entry: `<HHIIBB` and the name that follows. */
  datatype Entry = Entry(left: nat, right: nat, sector: nat, size: nat, flags: byte, nameSize: byte)

  predicate InRange(dir: seq<byte>, offset: nat) {
    offset + 14 <= |dir|
  }

  function EntryAt(dir: seq<byte>, offset: nat): Entry
    requires InRange(dir, offset)
  {
    Entry(Le16(dir, offset), Le16(dir, offset + 2), Le32(dir, offset + 4), Le32(dir, offset + 8),
          dir[offset + 12], dir[offset + 13])
  }

  predicate ValidEntry(dir: seq<byte>, offset: nat) {
    InRange(dir, offset) &&
    var e := EntryAt(dir, offset);
    e.nameSize != 0 && offset + 14 + e.nameSize <= |dir|
  }

  predicate IsCatalog(dir: seq<byte>, offset: nat)
    requires ValidEntry(dir, offset)
  {
    Lower(dir[offset + 14..offset + 14 + EntryAt(dir, offset).nameSize]) == Ascii("catalog.json")
  }

  /** The catalog file an entry names: a plain file of 2 bytes to 1 MiB inside the image. */
  function CatalogSpan(dir: seq<byte>, iso: seq<byte>, offset: nat): Option<seq<byte>>
    requires ValidEntry(dir, offset)
  {
    var e := EntryAt(dir, offset);
    if e.flags / DIRECTORY_FLAG % 2 == 1 || !(2 <= e.size <= LIMIT) then None else Span(iso, e.sector * SECTOR, e.size)
  }

  function Children(dir: seq<byte>, offset: nat): seq<nat>
    requires InRange(dir, offset)
  {
    var e := EntryAt(dir, offset);
    (if e.left != 0 then [e.left * 4] else []) + (if e.right != 0 then [e.right * 4] else [])
  }

  // ----- the walk, in any visiting order -----

  datatype Walk = Walk(pending: seq<nat>, visited: set<nat>, catalog: Option<seq<byte>>)

  ghost function Offsets(dir: seq<byte>): set<nat> {
    set o: nat | o < |dir| && InRange(dir, o)
  }

  function RemoveAt<T>(s: seq<T>, i: nat): seq<T>
    requires i < |s|
  {
    s[..i] + s[i + 1..]
  }

  type Order = seq<nat> -> nat

  /** Which pending entry is visited next. */
  function Pick(order: Order, pending: seq<nat>): (i: nat)
    requires pending != []
    ensures i < |pending|
  {
    order(pending) % |pending|
  }

  /** What one visit adds: `None` is an error of the given kind. */
  function Visit(dir: seq<byte>, iso: seq<byte>, w: Walk, offset: nat): (Option<Option<seq<byte>>>, Error) {
    if offset in w.visited || |w.visited| >= MAX_NODES || !InRange(dir, offset) then (None, BadGraph)
    else if !ValidEntry(dir, offset) then (None, BadEntry)
    else if !IsCatalog(dir, offset) then (Some(w.catalog), BadEntry)
    else if w.catalog.Some? then (None, AmbiguousCatalog)
    else
      var e := EntryAt(dir, offset);
      if e.flags / DIRECTORY_FLAG % 2 == 1 || !(2 <= e.size <= LIMIT) then (None, AmbiguousCatalog)
      else
        var span := Span(iso, e.sector * SECTOR, e.size);
        if span.None? then (None, OutsideImage) else (Some(span), BadEntry)
  }

  function WalkAll(dir: seq<byte>, iso: seq<byte>, order: Order, w: Walk): Result
    decreases Offsets(dir) - w.visited
  {
    if w.pending == [] then (if w.catalog.None? then Failure(NoCatalog) else Found(w.catalog.value))
    else
      var i := Pick(order, w.pending);
      var offset := w.pending[i];
      var (visit, error) := Visit(dir, iso, w, offset);
      if visit.None? then Failure(error)
      else
        assert offset in Offsets(dir) - w.visited;
        WalkAll(dir, iso, order,
                Walk(RemoveAt(w.pending, i) + Children(dir, offset), w.visited + {offset}, visit.value))
  }

  const FROM_ROOT := Walk([0], {}, None)

  /** The source pops the entry pushed last. */
  function LastPushed(pending: seq<nat>): nat {
    if pending == [] then 0 else |pending| - 1
  }

  // ----- what a readable directory is -----

  datatype Tree = Nil | Node(offset: nat, left: Tree, right: Tree)

  /** The tree reached from an offset by following the child links. */
  ghost predicate Unfolds(dir: seq<byte>, offset: nat, t: Tree)
    decreases t
  {
    t.Node? && t.offset == offset && ValidEntry(dir, offset) &&
    var e := EntryAt(dir, offset);
    (if e.left == 0 then t.left == Nil else Unfolds(dir, e.left * 4, t.left)) &&
    (if e.right == 0 then t.right == Nil else Unfolds(dir, e.right * 4, t.right))
  }

  ghost function Nodes(t: Tree): multiset<nat> {
    if t.Nil? then multiset{} else multiset{t.offset} + Nodes(t.left) + Nodes(t.right)
  }

  ghost function Catalogs(dir: seq<byte>, t: Tree): multiset<nat> {
    if t.Nil? then multiset{}
    else
      OwnCatalog(dir, t.offset) +
      Catalogs(dir, t.left) + Catalogs(dir, t.right)
  }

  ghost predicate NoRepeats(m: multiset<nat>) {
    forall o :: m[o] <= 1
  }

  /**
   * The directory is readable with this result: following the links from the root gives a
   * finite tree of valid entries, no entry reached twice, at most the node limit, exactly
   * one catalog entry, and that entry's file lies inside the image.
   */
  ghost predicate Readable(dir: seq<byte>, iso: seq<byte>, t: Tree, bytes: seq<byte>) {
    Unfolds(dir, 0, t) && NoRepeats(Nodes(t)) && |Nodes(t)| <= MAX_NODES &&
    exists c: nat :: Catalogs(dir, t) == multiset{c} && ValidEntry(dir, c) && CatalogSpan(dir, iso, c) == Some(bytes)
  }

  // ----- forests of pending entries -----

  ghost predicate UnfoldsAll(dir: seq<byte>, pending: seq<nat>, f: seq<Tree>) {
    |f| == |pending| && forall i :: 0 <= i < |f| ==> Unfolds(dir, pending[i], f[i])
  }

  ghost function NodesAll(f: seq<Tree>): multiset<nat> {
    if f == [] then multiset{} else Nodes(f[0]) + NodesAll(f[1..])
  }

  ghost function CatalogsAll(dir: seq<byte>, f: seq<Tree>): multiset<nat> {
    if f == [] then multiset{} else Catalogs(dir, f[0]) + CatalogsAll(dir, f[1..])
  }

  lemma {:induction false} AllAppend(dir: seq<byte>, a: seq<Tree>, b: seq<Tree>)
    ensures NodesAll(a + b) == NodesAll(a) + NodesAll(b)
    ensures CatalogsAll(dir, a + b) == CatalogsAll(dir, a) + CatalogsAll(dir, b)
  {
    hide Catalogs, Nodes;
    if a == [] {
      assert a + b == b;
    } else {
      assert (a + b)[1..] == a[1..] + b;
      AllAppend(dir, a[1..], b);
    }
  }

  lemma AllOne(dir: seq<byte>, t: Tree)
    ensures NodesAll([t]) == Nodes(t) && CatalogsAll(dir, [t]) == Catalogs(dir, t)
  {
    assert [t][1..] == [];
  }

  lemma AllRemove(dir: seq<byte>, f: seq<Tree>, i: nat)
    requires i < |f|
    ensures NodesAll(f) == NodesAll(RemoveAt(f, i)) + Nodes(f[i])
    ensures CatalogsAll(dir, f) == CatalogsAll(dir, RemoveAt(f, i)) + Catalogs(dir, f[i])
  {
    hide Catalogs, Nodes, CatalogsAll, NodesAll;
    assert f == f[..i] + [f[i]] + f[i + 1..];
    AllAppend(dir, f[..i] + [f[i]], f[i + 1..]);
    AllAppend(dir, f[..i], [f[i]]);
    AllAppend(dir, f[..i], f[i + 1..]);
    AllOne(dir, f[i]);
  }

  /** The children of a node, as a forest. */
  ghost function Subtrees(t: Tree): seq<Tree>
    requires t.Node?
  {
    (if t.left.Node? then [t.left] else []) + (if t.right.Node? then [t.right] else [])
  }

  ghost function OwnCatalog(dir: seq<byte>, offset: nat): multiset<nat> {
    if ValidEntry(dir, offset) && IsCatalog(dir, offset) then multiset{offset} else multiset{}
  }

  lemma AllOptional(dir: seq<byte>, t: Tree)
    ensures NodesAll(if t.Node? then [t] else []) == Nodes(t)
    ensures CatalogsAll(dir, if t.Node? then [t] else []) == Catalogs(dir, t)
  {
    hide IsCatalog, ValidEntry;
    if t.Node? {
      AllOne(dir, t);
    }
  }

  lemma OneLevel(dir: seq<byte>, t: Tree)
    requires t.Node?
    ensures Nodes(t) == multiset{t.offset} + Nodes(t.left) + Nodes(t.right)
    ensures Catalogs(dir, t) == OwnCatalog(dir, t.offset) + Catalogs(dir, t.left) + Catalogs(dir, t.right)
  {
    hide OwnCatalog;
  }

  lemma SubtreesOf(dir: seq<byte>, t: Tree)
    requires t.Node?
    ensures Nodes(t) == multiset{t.offset} + NodesAll(Subtrees(t))
    ensures Catalogs(dir, t) == OwnCatalog(dir, t.offset) + CatalogsAll(dir, Subtrees(t))
  {
    hide OwnCatalog, NodesAll, CatalogsAll, Nodes, Catalogs;
    OneLevel(dir, t);
    AllAppend(dir, if t.left.Node? then [t.left] else [], if t.right.Node? then [t.right] else []);
    AllOptional(dir, t.left);
    AllOptional(dir, t.right);
  }

  lemma SubtreesUnfold(dir: seq<byte>, offset: nat, t: Tree)
    requires Unfolds(dir, offset, t)
    ensures UnfoldsAll(dir, Children(dir, offset), Subtrees(t))
  {
    hide EntryAt;
    var e := EntryAt(dir, offset);
    assert t.left.Node? <==> e.left != 0;
    assert t.right.Node? <==> e.right != 0;
  }

  /** Joins the trees of a node's children under it. */
  lemma JoinSubtrees(dir: seq<byte>, offset: nat, kids: seq<Tree>) returns (t: Tree)
    requires ValidEntry(dir, offset) && UnfoldsAll(dir, Children(dir, offset), kids)
    ensures Unfolds(dir, offset, t) && Subtrees(t) == kids
  {
    hide EntryAt;
    var e := EntryAt(dir, offset);
    if e.left != 0 && e.right != 0 {
      t := Node(offset, kids[0], kids[1]);
    } else if e.left != 0 {
      t := Node(offset, kids[0], Nil);
    } else if e.right != 0 {
      t := Node(offset, Nil, kids[0]);
    } else {
      t := Node(offset, Nil, Nil);
    }
    assert Unfolds(dir, offset, t);
  }

  // ----- success of a walk -----

  /** The catalogs still to be met, with what was found so far, leave exactly `bytes`. */
  ghost predicate CatalogIs(dir: seq<byte>, iso: seq<byte>, found: Option<seq<byte>>, ahead: multiset<nat>,
                            bytes: seq<byte>) {
    if found.Some? then ahead == multiset{} && found.value == bytes
    else exists c: nat :: ahead == multiset{c} && ValidEntry(dir, c) && CatalogSpan(dir, iso, c) == Some(bytes)
  }

  ghost predicate Completes(dir: seq<byte>, iso: seq<byte>, w: Walk, f: seq<Tree>, bytes: seq<byte>) {
    UnfoldsAll(dir, w.pending, f) && NoRepeats(NodesAll(f)) && (forall o :: o in NodesAll(f) ==> o !in w.visited) &&
    |w.visited| + |NodesAll(f)| <= MAX_NODES && CatalogIs(dir, iso, w.catalog, CatalogsAll(dir, f), bytes)
  }

  /** Meeting one entry: the visit succeeds exactly when the catalogs ahead still come out right. */
  lemma VisitCatalog(dir: seq<byte>, iso: seq<byte>, w: Walk, offset: nat, rest: multiset<nat>, bytes: seq<byte>)
    requires ValidEntry(dir, offset) && offset !in w.visited && |w.visited| < MAX_NODES
    ensures CatalogIs(dir, iso, w.catalog, OwnCatalog(dir, offset) + rest, bytes) <==>
            Visit(dir, iso, w, offset).0.Some? &&
            CatalogIs(dir, iso, Visit(dir, iso, w, offset).0.value, rest, bytes)
  {
    hide IsCatalog, ValidEntry, Span, EntryAt, CatalogSpan, Visit;
    VisitIs(dir, iso, w, offset);
    var visit := Visit(dir, iso, w, offset).0;
    if IsCatalog(dir, offset) {
      assert OwnCatalog(dir, offset) == multiset{offset};
      assert (multiset{offset} + rest)[offset] >= 1;
      if w.catalog.None? {
        if CatalogIs(dir, iso, None, multiset{offset} + rest, bytes) {
          var c: nat :| multiset{offset} + rest == multiset{c} && ValidEntry(dir, c) && CatalogSpan(dir, iso, c) == Some(bytes);
          assert offset in multiset{c};
          assert rest == multiset{c} - multiset{offset};
        }
        if visit.Some? && CatalogIs(dir, iso, visit.value, rest, bytes) {
          assert multiset{offset} + rest == multiset{offset};
        }
      }
    } else {
      assert OwnCatalog(dir, offset) + rest == rest;
    }
  }

  /** What a visit keeps of the catalog, for an entry that passes the graph checks. */
  lemma VisitIs(dir: seq<byte>, iso: seq<byte>, w: Walk, offset: nat)
    requires ValidEntry(dir, offset) && offset !in w.visited && |w.visited| < MAX_NODES
    ensures
      Visit(dir, iso, w, offset).0 ==
      if !IsCatalog(dir, offset) then Some(w.catalog)
      else if w.catalog.Some? || CatalogSpan(dir, iso, offset).None? then None
      else Some(CatalogSpan(dir, iso, offset))
  {
    hide IsCatalog, Span, EntryAt;
  }

  /** The state and the forest after visiting pending entry `i`. */
  ghost function After(dir: seq<byte>, w: Walk, i: nat, catalog: Option<seq<byte>>): Walk
    requires i < |w.pending| && InRange(dir, w.pending[i])
  {
    Walk(RemoveAt(w.pending, i) + Children(dir, w.pending[i]), w.visited + {w.pending[i]}, catalog)
  }

  lemma NodesStep(rest: multiset<nat>, kids: multiset<nat>, offset: nat, visited: set<nat>, own: multiset<nat>)
    requires own == multiset{offset} + kids
    ensures NoRepeats(rest + own) && (forall o :: o in rest + own ==> o !in visited) <==>
            offset !in visited && NoRepeats(rest + kids) && (forall o :: o in rest + kids ==> o !in visited + {offset})
    ensures |rest + own| == 1 + |rest + kids|
  {
    var all, next := rest + own, rest + kids;
    assert all == next + multiset{offset};
    assert forall o :: all[o] == next[o] + if o == offset then 1 else 0;
    if NoRepeats(all) {
      assert all[offset] <= 1;
    }
    if NoRepeats(next) && (forall o :: o in next ==> o !in visited + {offset}) {
      assert next[offset] == 0;
    }
  }

  lemma StepForward(dir: seq<byte>, iso: seq<byte>, w: Walk, f: seq<Tree>, i: nat, bytes: seq<byte>)
    requires Completes(dir, iso, w, f, bytes) && i < |w.pending|
    ensures
      var visit := Visit(dir, iso, w, w.pending[i]).0;
      InRange(dir, w.pending[i]) && visit.Some? &&
      Completes(dir, iso, After(dir, w, i, visit.value), RemoveAt(f, i) + Subtrees(f[i]), bytes)
  {
    hide Visit, CatalogIs, NodesAll, CatalogsAll, Nodes, Catalogs, Children, Subtrees, NoRepeats, OwnCatalog;
    var offset, t := w.pending[i], f[i];
    TreeRoot(dir, offset, t);
    ForestTotals(dir, f, i);
    SubtreesUnfold(dir, offset, t);
    AllAppend(dir, RemoveAt(f, i), Subtrees(t));
    NodesStep(NodesAll(RemoveAt(f, i)), NodesAll(Subtrees(t)), offset, w.visited, Nodes(t));
    VisitCatalog(dir, iso, w, offset, CatalogsAll(dir, RemoveAt(f, i)) + CatalogsAll(dir, Subtrees(t)), bytes);
  }

  lemma TreeRoot(dir: seq<byte>, offset: nat, t: Tree)
    requires Unfolds(dir, offset, t)
    ensures t.Node? && t.offset == offset && ValidEntry(dir, offset)
  {
  }

  lemma VisitedOk(dir: seq<byte>, iso: seq<byte>, w: Walk, offset: nat)
    requires Visit(dir, iso, w, offset).0.Some?
    ensures ValidEntry(dir, offset) && offset !in w.visited && |w.visited| < MAX_NODES
  {
  }

  lemma StepBackward(dir: seq<byte>, iso: seq<byte>, w: Walk, g: seq<Tree>, i: nat, bytes: seq<byte>)
    returns (f: seq<Tree>)
    requires i < |w.pending| && Visit(dir, iso, w, w.pending[i]).0.Some? && InRange(dir, w.pending[i])
    requires Completes(dir, iso, After(dir, w, i, Visit(dir, iso, w, w.pending[i]).0.value), g, bytes)
    ensures Completes(dir, iso, w, f, bytes)
  {
    hide Visit, CatalogIs, NodesAll, CatalogsAll, Nodes, Catalogs, Children, Subtrees, NoRepeats, OwnCatalog, UnfoldsAll,
         RemoveAt;
    var offset, n := w.pending[i], |w.pending| - 1;
    VisitedOk(dir, iso, w, offset);
    f := GatherForest(dir, w.pending, i, g);
    ForestTotals(dir, f, i);
    AllAppend(dir, g[..n], g[n..]);
    assert g == g[..n] + g[n..];
    NodesStep(NodesAll(g[..n]), NodesAll(g[n..]), offset, w.visited, Nodes(f[i]));
    VisitCatalog(dir, iso, w, offset, CatalogsAll(dir, g), bytes);
  }

  /** Totals of a forest before and after its tree `i` is replaced by that tree's children. */
  lemma ForestTotals(dir: seq<byte>, f: seq<Tree>, i: nat)
    requires i < |f| && f[i].Node?
    ensures NodesAll(f) == NodesAll(RemoveAt(f, i)) + Nodes(f[i])
    ensures Nodes(f[i]) == multiset{f[i].offset} + NodesAll(Subtrees(f[i]))
    ensures CatalogsAll(dir, f) ==
            OwnCatalog(dir, f[i].offset) + (CatalogsAll(dir, RemoveAt(f, i)) + CatalogsAll(dir, Subtrees(f[i])))
  {
    hide NodesAll, CatalogsAll, Nodes, Catalogs, Subtrees, OwnCatalog, RemoveAt;
    AllRemove(dir, f, i);
    SubtreesOf(dir, f[i]);
  }

  /** The forest whose tree `i` has the last trees of `g` as children, and whose others are the first ones. */
  lemma GatherForest(dir: seq<byte>, pending: seq<nat>, i: nat, g: seq<Tree>) returns (f: seq<Tree>)
    requires i < |pending| && ValidEntry(dir, pending[i])
    requires UnfoldsAll(dir, RemoveAt(pending, i) + Children(dir, pending[i]), g)
    ensures
      var n := |pending| - 1;
      UnfoldsAll(dir, pending, f) && |g| >= n && |f| == |pending| && RemoveAt(f, i) == g[..n] && f[i].Node? &&
      f[i].offset == pending[i] && Subtrees(f[i]) == g[n..]
  {
    hide Children, Subtrees, Unfolds;
    var n := |pending| - 1;
    KidsUnfold(dir, pending, i, g);
    var others := g[..n];
    var t := JoinSubtrees(dir, pending[i], g[n..]);
    TreeRoot(dir, pending[i], t);
    f := others[..i] + [t] + others[i..];
    assert RemoveAt(f, i) == others;
  }

  lemma KidsUnfold(dir: seq<byte>, pending: seq<nat>, i: nat, g: seq<Tree>)
    requires i < |pending| && InRange(dir, pending[i])
    requires UnfoldsAll(dir, RemoveAt(pending, i) + Children(dir, pending[i]), g)
    ensures
      var n := |pending| - 1;
      |g| >= n && UnfoldsAll(dir, Children(dir, pending[i]), g[n..]) &&
      (forall k :: 0 <= k < i ==> Unfolds(dir, pending[k], g[k])) &&
      (forall k :: i < k < |pending| ==> Unfolds(dir, pending[k], g[k - 1]))
  {
    hide Children, Unfolds;
    var n := |pending| - 1;
    var next := RemoveAt(pending, i) + Children(dir, pending[i]);
    assert forall k :: 0 <= k < i ==> next[k] == pending[k];
    assert forall k :: i < k < |pending| ==> next[k - 1] == pending[k];
    assert forall k :: 0 <= k < |Children(dir, pending[i])| ==> next[n + k] == Children(dir, pending[i])[k];
  }

  /** A walk that succeeds has met a readable forest. */
  lemma {:induction false} WalkSound(dir: seq<byte>, iso: seq<byte>, order: Order, w: Walk) returns (f: seq<Tree>)
    requires WalkAll(dir, iso, order, w).Found? && |w.visited| <= MAX_NODES
    ensures Completes(dir, iso, w, f, WalkAll(dir, iso, order, w).bytes)
    decreases Offsets(dir) - w.visited
  {
    hide Visit, Children, Completes;
    if w.pending == [] {
      f := [];
      WalkEnds(dir, iso, w);
    } else {
      var i := Pick(order, w.pending);
      var offset := w.pending[i];
      var (visit, error) := Visit(dir, iso, w, offset);
      VisitedOk(dir, iso, w, offset);
      assert offset in Offsets(dir) - w.visited;
      var next := After(dir, w, i, visit.value);
      var g := WalkSound(dir, iso, order, next);
      f := StepBackward(dir, iso, w, g, i, WalkAll(dir, iso, order, w).bytes);
    }
  }

  lemma WalkEnds(dir: seq<byte>, iso: seq<byte>, w: Walk)
    requires w.pending == [] && w.catalog.Some? && |w.visited| <= MAX_NODES
    ensures Completes(dir, iso, w, [], w.catalog.value)
  {
  }

  /** A readable forest is walked to its result, whatever the order. */
  lemma {:induction false} WalkComplete(dir: seq<byte>, iso: seq<byte>, order: Order, w: Walk, f: seq<Tree>,
                                        bytes: seq<byte>)
    requires Completes(dir, iso, w, f, bytes)
    ensures WalkAll(dir, iso, order, w) == Found(bytes)
    decreases Offsets(dir) - w.visited
  {
    hide Visit, Children, Completes;
    if w.pending == [] {
      NothingLeft(dir, iso, w, f, bytes);
    } else {
      var i := Pick(order, w.pending);
      SameCount(dir, iso, w, f, bytes);
      StepForward(dir, iso, w, f, i, bytes);
      VisitedOk(dir, iso, w, w.pending[i]);
      assert w.pending[i] in Offsets(dir) - w.visited;
      WalkComplete(dir, iso, order, After(dir, w, i, Visit(dir, iso, w, w.pending[i]).0.value),
                   RemoveAt(f, i) + Subtrees(f[i]), bytes);
    }
  }

  lemma SameCount(dir: seq<byte>, iso: seq<byte>, w: Walk, f: seq<Tree>, bytes: seq<byte>)
    requires Completes(dir, iso, w, f, bytes)
    ensures |f| == |w.pending| && forall i :: 0 <= i < |f| ==> f[i].Node?
  {
    forall i | 0 <= i < |f| ensures f[i].Node? {
      TreeRoot(dir, w.pending[i], f[i]);
    }
  }

  lemma UnfoldsNothing(dir: seq<byte>, f: seq<Tree>)
    requires UnfoldsAll(dir, [], f)
    ensures f == []
  {
  }

  lemma NothingLeft(dir: seq<byte>, iso: seq<byte>, w: Walk, f: seq<Tree>, bytes: seq<byte>)
    requires Completes(dir, iso, w, f, bytes) && w.pending == []
    ensures w.catalog == Some(bytes)
  {
    hide Catalogs, NodesAll, UnfoldsAll;
    assert f == [] && CatalogsAll(dir, f) == multiset{} by {
      UnfoldsNothing(dir, f);
    }
    assert forall c: nat :: multiset{c}[c] == 1;
  }

  /**
   * In any visiting order the walk returns a file exactly when the directory is readable
   * with that file.
   */
  lemma WalkReadsExactly(dir: seq<byte>, iso: seq<byte>, order: Order, bytes: seq<byte>)
    ensures WalkAll(dir, iso, order, FROM_ROOT) == Found(bytes) <==> exists t :: Readable(dir, iso, t, bytes)
  {
    hide WalkAll, Readable, Completes;
    if WalkAll(dir, iso, order, FROM_ROOT) == Found(bytes) {
      var f := WalkSound(dir, iso, order, FROM_ROOT);
      RootForest(dir, iso, f, bytes);
    }
    if exists t :: Readable(dir, iso, t, bytes) {
      var t :| Readable(dir, iso, t, bytes);
      RootTree(dir, iso, t, bytes);
      WalkComplete(dir, iso, order, FROM_ROOT, [t], bytes);
    }
  }

  lemma RootForest(dir: seq<byte>, iso: seq<byte>, f: seq<Tree>, bytes: seq<byte>)
    requires Completes(dir, iso, FROM_ROOT, f, bytes)
    ensures exists t :: Readable(dir, iso, t, bytes)
  {
    hide Unfolds, Nodes, Catalogs, NoRepeats;
    assert f == [f[0]];
    AllOne(dir, f[0]);
    assert Unfolds(dir, FROM_ROOT.pending[0], f[0]);
    assert Readable(dir, iso, f[0], bytes);
  }

  lemma RootTree(dir: seq<byte>, iso: seq<byte>, t: Tree, bytes: seq<byte>)
    requires Readable(dir, iso, t, bytes)
    ensures Completes(dir, iso, FROM_ROOT, [t], bytes)
  {
    hide Unfolds, Nodes, Catalogs, NoRepeats;
    AllOne(dir, t);
  }

  /** The child visiting order changes neither success nor the bytes. */
  lemma OrderIrrelevant(dir: seq<byte>, iso: seq<byte>, a: Order, b: Order)
    ensures WalkAll(dir, iso, a, FROM_ROOT).Found? <==> WalkAll(dir, iso, b, FROM_ROOT).Found?
    ensures WalkAll(dir, iso, a, FROM_ROOT).Found? ==>
              WalkAll(dir, iso, a, FROM_ROOT) == WalkAll(dir, iso, b, FROM_ROOT)
  {
    hide WalkAll, Readable;
    var x, y := WalkAll(dir, iso, a, FROM_ROOT), WalkAll(dir, iso, b, FROM_ROOT);
    if x.Found? {
      WalkReadsExactly(dir, iso, a, x.bytes);
      WalkReadsExactly(dir, iso, b, x.bytes);
    }
    if y.Found? {
      WalkReadsExactly(dir, iso, b, y.bytes);
      WalkReadsExactly(dir, iso, a, y.bytes);
    }
  }

  // ----- the reader -----

  function EmbeddedSpec(iso: seq<byte>): Result {
    var volume := Span(iso, 32 * SECTOR, SECTOR);
    if volume.None? then Failure(OutsideImage)
    else
      var v := volume.value;
      var magic := Ascii("MICROSOFT*XBOX*MEDIA");
      if v[..20] != magic || v[2028..] != magic then Failure(NotXiso)
      else
        var rootSector, rootSize := Le32(v, 20), Le32(v, 24);
        if !(14 <= rootSize <= LIMIT) then Failure(RootTooLarge)
        else
          var dir := Span(iso, rootSector * SECTOR, rootSize);
          if dir.None? then Failure(OutsideImage) else WalkAll(dir.value, iso, LastPushed, FROM_ROOT)
  }

  const VOLUME: nat := 32 * SECTOR

  /** The volume sector lies inside the image and carries the magic text at both ends. */
  predicate HasVolume(iso: seq<byte>) {
    var magic := Ascii("MICROSOFT*XBOX*MEDIA");
    VOLUME + SECTOR <= |iso| && iso[VOLUME..VOLUME + 20] == magic && iso[VOLUME + 2028..VOLUME + 2048] == magic
  }

  function RootStart(iso: seq<byte>): nat
    requires VOLUME + SECTOR <= |iso|
  {
    Le32(iso, VOLUME + 20) * SECTOR
  }

  function RootSize(iso: seq<byte>): nat
    requires VOLUME + SECTOR <= |iso|
  {
    Le32(iso, VOLUME + 24)
  }

  /** The volume names a root directory of 14 bytes to 1 MiB inside the image. */
  predicate HasRoot(iso: seq<byte>) {
    HasVolume(iso) && 14 <= RootSize(iso) <= LIMIT && RootStart(iso) + RootSize(iso) <= |iso|
  }

  function Root(iso: seq<byte>): seq<byte>
    requires HasRoot(iso)
  {
    iso[RootStart(iso)..RootStart(iso) + RootSize(iso)]
  }

  lemma Le32OfSlice(s: seq<byte>, from: nat, to: nat, at: nat)
    requires from <= to <= |s| && at + 4 <= to - from
    ensures Le32(s[from..to], at) == Le32(s, from + at)
  {
  }

  lemma VolumeParts(iso: seq<byte>)
    requires VOLUME + SECTOR <= |iso|
    ensures
      var v := iso[VOLUME..VOLUME + SECTOR];
      v[..20] == iso[VOLUME..VOLUME + 20] && v[2028..] == iso[VOLUME + 2028..VOLUME + 2048] &&
      Le32(v, 20) * SECTOR == RootStart(iso) && Le32(v, 24) == RootSize(iso)
  {
    hide Le32;
    Le32OfSlice(iso, VOLUME, VOLUME + SECTOR, 20);
    Le32OfSlice(iso, VOLUME, VOLUME + SECTOR, 24);
  }

  lemma SpecUnfolds(iso: seq<byte>, bytes: seq<byte>)
    ensures EmbeddedSpec(iso) == Found(bytes) <==>
            HasRoot(iso) && WalkAll(Root(iso), iso, LastPushed, FROM_ROOT) == Found(bytes)
  {
    hide Ascii, WalkAll, Le32, RootStart, RootSize;
    if VOLUME + SECTOR <= |iso| {
      VolumeParts(iso);
    }
  }

  /**
   * The reader returns a file exactly for an image with both magic texts and a root directory
   * inside it that is readable with that file; every other image is an error.
   */
  lemma ImageReadsExactly(iso: seq<byte>, bytes: seq<byte>)
    ensures EmbeddedSpec(iso) == Found(bytes) <==> HasRoot(iso) && exists t :: Readable(Root(iso), iso, t, bytes)
  {
    hide EmbeddedSpec, WalkAll, Readable, HasVolume, RootStart, RootSize;
    SpecUnfolds(iso, bytes);
    if HasRoot(iso) {
      WalkReadsExactly(Root(iso), iso, LastPushed, bytes);
    }
  }

  method EmbeddedCatalog(iso: seq<byte>) returns (r: Result)
    ensures r == EmbeddedSpec(iso)
  {
    hide Ascii, WalkAll, Le32, Span;
    var volume := Span(iso, 32 * SECTOR, SECTOR);
    if volume.None? {
      return Failure(OutsideImage);
    }
    SpanSize(iso, 32 * SECTOR, SECTOR);
    var magic := Ascii("MICROSOFT*XBOX*MEDIA");
    if volume.value[..20] != magic || volume.value[2028..] != magic {
      return Failure(NotXiso);
    }
    var rootSector, rootSize := Le32(volume.value, 20), Le32(volume.value, 24);
    if !(14 <= rootSize <= LIMIT) {
      return Failure(RootTooLarge);
    }
    var directory := Span(iso, rootSector * SECTOR, rootSize);
    if directory.None? {
      return Failure(OutsideImage);
    }
    r := WalkDirectory(directory.value, iso);
  }

  /** The `while pending` loop: the entry pushed last is visited next. */
  method WalkDirectory(dir: seq<byte>, iso: seq<byte>) returns (r: Result)
    ensures r == WalkAll(dir, iso, LastPushed, FROM_ROOT)
  {
    hide Visit, Children, InRange;
    var pending: seq<nat> := [0];
    var visited: set<nat> := {};
    var catalog: Option<seq<byte>> := None;
    while pending != []
      invariant WalkAll(dir, iso, LastPushed, FROM_ROOT) ==
                WalkAll(dir, iso, LastPushed, Walk(pending, visited, catalog))
      decreases Offsets(dir) - visited
    {
      var last := |pending| - 1;
      var offset := pending[last];
      ghost var before := Walk(pending, visited, catalog);
      var (visit, error) := Visit(dir, iso, Walk(pending, visited, catalog), offset);
      WalkStep(dir, iso, before);
      if visit.None? {
        return Failure(error);
      }
      pending := pending[..last];
      visited := visited + {offset};
      catalog := visit.value;
      pending := pending + Children(dir, offset);
    }
    if catalog.None? {
      return Failure(NoCatalog);
    }
    return Found(catalog.value);
  }

  /** One turn of the loop is one step of the walk that visits the last entry. */
  lemma WalkStep(dir: seq<byte>, iso: seq<byte>, w: Walk)
    requires w.pending != []
    ensures
      var last := |w.pending| - 1;
      var offset := w.pending[last];
      var (visit, error) := Visit(dir, iso, w, offset);
      if visit.None? then WalkAll(dir, iso, LastPushed, w) == Failure(error)
      else
        InRange(dir, offset) && offset in Offsets(dir) && offset !in w.visited &&
        WalkAll(dir, iso, LastPushed, w) ==
        WalkAll(dir, iso, LastPushed,
                Walk(w.pending[..last] + Children(dir, offset), w.visited + {offset}, visit.value))
  {
    hide Visit, Children;
    var last := |w.pending| - 1;
    var offset := w.pending[last];
    var (visit, error) := Visit(dir, iso, w, offset);
    assert Pick(LastPushed, w.pending) == last;
    if visit.Some? {
      VisitedOk(dir, iso, w, offset);
      assert RemoveAt(w.pending, last) == w.pending[..last];
    }
  }

  lemma SpanSize(iso: seq<byte>, offset: nat, size: nat)
    requires Span(iso, offset, size).Some?
    ensures |Span(iso, offset, size).value| == size
  {
  }
}
