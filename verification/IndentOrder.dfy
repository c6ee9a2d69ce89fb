/** 123 link driver: the tree keeps the order of the lines; sizes and lookups over it. */
module IndentOrder {
  import opened Results
  import opened IndentLines
  import opened IndentTree

  // ---------- The lines below a node ----------

  /** The first node past the subtree of `i`: for a file the next node; for a folder the next
      node whose level is not above its own. */
  function End(entries: seq<Entry>, i: nat): (e: nat)
    requires i <= |entries|
    ensures i < e <= |entries| + 1
    ensures forall k | i < k < e :: IsFolderNode(entries, i) && Level(entries, i) < Level(entries, k)
    ensures e <= |entries| ==> !(IsFolderNode(entries, i) && Level(entries, i) < Level(entries, e))
  {
    EndFrom(entries, i, i + 1)
  }

  function EndFrom(entries: seq<Entry>, i: nat, from: nat): (e: nat)
    requires i < from <= |entries| + 1
    ensures from <= e <= |entries| + 1
    ensures forall k | from <= k < e :: IsFolderNode(entries, i) && Level(entries, i) < Level(entries, k)
    ensures e <= |entries| ==> !(IsFolderNode(entries, i) && Level(entries, i) < Level(entries, e))
    decreases |entries| - from
  {
    if from <= |entries| && IsFolderNode(entries, i) && Level(entries, i) < Level(entries, from)
    then EndFrom(entries, i, from + 1) else from
  }

  /** Between `i` and `b` every folder is closed at `b`: whatever comes at `b` hangs directly
      under `i`, or outside it. */
  ghost predicate Boundary(entries: seq<Entry>, i: nat, b: nat)
    requires i <= |entries|
  {
    && i < b <= End(entries, i)
    && (b <= |entries| ==> forall q: nat | i < q < b :: !Open(entries, q, b))
  }

  lemma FirstBoundary(entries: seq<Entry>, i: nat)
    requires i <= |entries|
    ensures Boundary(entries, i, i + 1)
  {
  }

  /** A node at a boundary inside a folder is its child, and past that child's subtree comes
      the next boundary. */
  lemma NextBoundary(entries: seq<Entry>, parents: seq<int>, i: nat, b: nat)
    requires ParentsRight(entries, parents) && i <= |entries|
    requires Boundary(entries, i, b) && b < End(entries, i)
    ensures parents[b] == i
    ensures Boundary(entries, i, End(entries, b))
    ensures forall k | b < k < End(entries, b) :: parents[k] != i
  {
    assert IsParent(entries, i, b);
    ParentUnique(entries, i, parents[b], b);
    var e := End(entries, b);
    if e <= |entries| {
      forall q: nat | i < q < e ensures !Open(entries, q, e) {
        if q == b {
          assert Level(entries, b) >= Level(entries, e) || !IsFolderNode(entries, b);
        } else if q > b {
          assert Level(entries, b) < Level(entries, q);
        } else {
          assert !Open(entries, q, b);
        }
      }
    }
    assert Level(entries, i) < Level(entries, b);
    forall k | b < k < e ensures parents[k] != i {
      assert IsParent(entries, parents[k], k);
      assert Open(entries, b, k);
    }
  }

  /** A node has no children past its subtree. */
  lemma NothingPastEnd(entries: seq<Entry>, parents: seq<int>, i: nat)
    requires ParentsRight(entries, parents) && i <= |entries|
    ensures KidsFrom(parents, i, End(entries, i)) == []
  {
    var e := End(entries, i);
    forall k | e <= k < |parents| ensures parents[k] != i {
      assert IsParent(entries, parents[k], k);
      assert Open(entries, parents[k], k);
    }
    NoKids(parents, i, e);
  }

  /** The children of a folder are the nodes at its boundaries. */
  lemma KidsAtBoundary(entries: seq<Entry>, parents: seq<int>, i: nat, b: nat)
    requires ParentsRight(entries, parents) && i <= |entries| && Boundary(entries, i, b)
    ensures b < End(entries, i) ==> KidsFrom(parents, i, b) == [b] + KidsFrom(parents, i, End(entries, b))
    ensures b == End(entries, i) ==> KidsFrom(parents, i, b) == []
  {
    if b == End(entries, i) {
      NothingPastEnd(entries, parents, i);
    } else {
      NextBoundary(entries, parents, i, b);
      SkipKids(parents, i, b + 1, End(entries, b));
    }
  }

  lemma {:induction false} SkipKids(parents: seq<int>, i: int, a: nat, b: nat)
    requires a <= b <= |parents| && forall k | a <= k < b :: parents[k] != i
    ensures KidsFrom(parents, i, a) == KidsFrom(parents, i, b)
    decreases b - a
  {
    if a < b {
      SkipKids(parents, i, a + 1, b);
    }
  }

  // ---------- Preorder ----------

  /** The nodes of the subtree of `i`, each before its children and the children in order. */
  ghost function Preorder(parents: seq<int>, i: nat): seq<nat>
    requires i < |parents|
    decreases |parents| - i, 1, 0
  {
    [i] + PreorderOf(parents, i, KidsFrom(parents, i, i + 1))
  }

  ghost function PreorderOf(parents: seq<int>, i: nat, kids: seq<nat>): seq<nat>
    requires i < |parents| && forall t | 0 <= t < |kids| :: i < kids[t] < |parents|
    decreases |parents| - i, 0, |kids|
  {
    if kids == [] then []
    else Preorder(parents, kids[0]) + PreorderOf(parents, i, kids[1..])
  }

  function Range(a: nat, b: nat): seq<nat>
    requires a <= b
  {
    seq(b - a, t requires 0 <= t < b - a => a + t)
  }

  lemma RangeConcat(a: nat, b: nat, c: nat)
    requires a <= b <= c
    ensures Range(a, b) + Range(b, c) == Range(a, c)
  {
  }

  lemma {:induction false} PreorderFromBoundary(entries: seq<Entry>, parents: seq<int>, i: nat, b: nat)
    requires ParentsRight(entries, parents) && i <= |entries| && Boundary(entries, i, b)
    ensures PreorderOf(parents, i, KidsFrom(parents, i, b)) == Range(b, End(entries, i))
    decreases |parents| - i, 0, |parents| - b
  {
    KidsAtBoundary(entries, parents, i, b);
    if b < End(entries, i) {
      hide Range, KidsFrom, End;
      NextBoundary(entries, parents, i, b);
      PreorderIsRange(entries, parents, b);
      PreorderFromBoundary(entries, parents, i, End(entries, b));
      var kids := KidsFrom(parents, i, b);
      assert kids[1..] == KidsFrom(parents, i, End(entries, b));
      RangeConcat(b, End(entries, b), End(entries, i));
    }
  }

  lemma {:induction false} PreorderIsRange(entries: seq<Entry>, parents: seq<int>, i: nat)
    requires ParentsRight(entries, parents) && i <= |entries|
    ensures Preorder(parents, i) == Range(i, End(entries, i))
    decreases |parents| - i, 1, 0
  {
    FirstBoundary(entries, i);
    PreorderFromBoundary(entries, parents, i, i + 1);
  }

  /** Nothing is lost, added or reordered: the preorder of the whole tree is the root followed
      by the lines in the order of the text. */
  lemma PreorderIsLineOrder(entries: seq<Entry>, parents: seq<int>)
    requires ParentsRight(entries, parents)
    ensures Preorder(parents, 0) == Range(0, |entries| + 1)
  {
    PreorderIsRange(entries, parents, 0);
  }

  // ---------- Sizes ----------

  /** The sizes of the files among nodes `a` up to `b`. */
  function FileSizes(entries: seq<Entry>, a: nat, b: nat): int
    requires a <= b <= |entries| + 1
    decreases b - a
  {
    if a == b then 0
    else (if a > 0 && entries[a - 1].FileLine? then entries[a - 1].file.size else 0) + FileSizes(entries, a + 1, b)
  }

  lemma {:induction false} FileSizesSplit(entries: seq<Entry>, a: nat, b: nat, c: nat)
    requires a <= b <= c <= |entries| + 1
    ensures FileSizes(entries, a, c) == FileSizes(entries, a, b) + FileSizes(entries, b, c)
    decreases b - a
  {
    if a < b {
      FileSizesSplit(entries, a + 1, b, c);
    }
  }

  /** What the line of node `i` adds to the sizes. */
  lemma OwnSize(entries: seq<Entry>, i: nat)
    requires i <= |entries|
    ensures !IsFolderNode(entries, i) ==>
              i > 0 && End(entries, i) == i + 1 && FileSizes(entries, i, i + 1) == entries[i - 1].file.size
    ensures IsFolderNode(entries, i) ==> FileSizes(entries, i, i + 1) == 0
    ensures FileSizes(entries, i + 1, i + 1) == 0
  {
  }

  lemma Lengths(made: seq<Node>, parents: seq<int>, entries: seq<Entry>)
    requires Shape(made, parents) && Carries(made, entries)
    ensures |made| == |parents| == |entries| + 1
  {
  }

  /** The children of `i` from node `b` on. */
  ghost function PickKids(made: seq<Node>, parents: seq<int>, i: nat, b: nat): seq<Node>
    requires |made| == |parents| && b <= |parents|
  {
    Pick(made, KidsFrom(parents, i, b))
  }

  /** All children of a node come after it. */
  lemma KidsAfter(made: seq<Node>, parents: seq<int>, i: nat)
    requires Shape(made, parents) && i < |made|
    ensures made[i].children == PickKids(made, parents, i, i + 1)
  {
    SkipKids(parents, i, 0, i + 1);
  }

  /** The next child to visit is the node at the boundary. */
  lemma ChildAtBoundary(made: seq<Node>, parents: seq<int>, entries: seq<Entry>, i: nat, b: nat, rest: seq<Node>)
    requires ParentsRight(entries, parents) && |made| == |parents| && i <= |entries| && Boundary(entries, i, b)
    requires rest == PickKids(made, parents, i, b)
    ensures rest == [] <==> b == End(entries, i)
    ensures rest != [] ==>
              && b <= |entries| && rest[0] == made[b] && parents[b] == i && End(entries, b) <= End(entries, i)
              && Boundary(entries, i, End(entries, b))
              && rest[1..] == PickKids(made, parents, i, End(entries, b))
  {
    KidsAtBoundary(entries, parents, i, b);
    if b < End(entries, i) {
      NextBoundary(entries, parents, i, b);
    }
  }

  // ---------- Walking the nodes ----------

  /** A node, then its children one after the other, each with everything below it; no node is entered
      again below itself, nor one outside `nodes`. */
  ghost function Traverse(node: Node, nodes: set<Node>): seq<Node>
    reads nodes
    decreases nodes, 0
  {
    if node !in nodes then [] else [node] + TraverseAll(node.children, nodes - {node})
  }

  ghost function TraverseAll(kids: seq<Node>, nodes: set<Node>): seq<Node>
    reads nodes
    decreases nodes, |kids|
  {
    if kids == [] then [] else Traverse(kids[0], nodes) + TraverseAll(kids[1..], nodes)
  }

  lemma {:induction false} KidsTraversed(made: seq<Node>, parents: seq<int>, entries: seq<Entry>, i: nat, b: nat,
      rest: seq<Node>, nodes: set<Node>)
    requires Shape(made, parents) && Carries(made, entries) && ParentsRight(entries, parents) && i <= |entries|
    requires Boundary(entries, i, b) && |made| == |parents| == |entries| + 1
    requires rest == PickKids(made, parents, i, b)
    requires forall k | b <= k < End(entries, i) :: made[k] in nodes
    ensures TraverseAll(rest, nodes) == made[b..End(entries, i)]
    decreases |entries| - i, 0, |entries| + 1 - b
  {
    hide Shape, Carries, ParentsRight, End, Traverse, PickKids, Boundary;
    Starts(entries, i, b);
    ChildAtBoundary(made, parents, entries, i, b, rest);
    if rest != [] {
      var e := End(entries, b);
      Starts(entries, i, e);
      TraverseIsRange(made, parents, entries, b, nodes);
      KidsTraversed(made, parents, entries, i, e, rest[1..], nodes);
      Spliced(made, b, e, End(entries, i));
    }
  }

  lemma Spliced(s: seq<Node>, a: nat, b: nat, c: nat)
    requires a <= b <= c <= |s|
    ensures s[a..b] + s[b..c] == s[a..c]
  {
  }

  lemma Starts(entries: seq<Entry>, i: nat, b: nat)
    requires i <= |entries| && Boundary(entries, i, b)
    ensures i < b <= End(entries, i) <= |entries| + 1
  {
  }

  lemma Different(made: seq<Node>, parents: seq<int>, i: nat, j: nat)
    requires Shape(made, parents) && i < j < |made|
    ensures made[i] != made[j]
  {
  }

  /** Walking the subtree of a node visits exactly the nodes of its lines, in the order of the text. */
  lemma {:induction false} TraverseIsRange(made: seq<Node>, parents: seq<int>, entries: seq<Entry>, i: nat,
      nodes: set<Node>)
    requires Shape(made, parents) && Carries(made, entries) && ParentsRight(entries, parents) && i <= |entries|
    requires |made| == |parents| == |entries| + 1
    requires forall k | i <= k < End(entries, i) :: made[k] in nodes
    ensures Traverse(made[i], nodes) == made[i..End(entries, i)]
    decreases |entries| - i, 1, 0
  {
    hide Shape, Carries, ParentsRight, End, TraverseAll, PickKids, Boundary;
    FirstBoundary(entries, i);
    Starts(entries, i, i + 1);
    KidsAfter(made, parents, i);
    var left := nodes - {made[i]};
    forall k | i + 1 <= k < End(entries, i) ensures made[k] in left {
      Different(made, parents, i, k);
    }
    KidsTraversed(made, parents, entries, i, i + 1, made[i].children, left);
  }

  /** Nothing is lost, added or reordered: walking the tree from its root visits the root and then one
      node per line that is not blank, in the order of the text, each saying what its line says. */
  lemma TreeIsLineOrder(made: seq<Node>, parents: seq<int>, entries: seq<Entry>)
    requires Shape(made, parents) && Carries(made, entries) && ParentsRight(entries, parents)
    ensures Traverse(made[0], set n <- made) == made
    ensures forall i | 0 <= i < |entries| :: Says(made[i + 1], entries[i])
  {
    Lengths(made, parents, entries);
    WholeTree(entries);
    TraverseIsRange(made, parents, entries, 0, set n <- made);
  }

  lemma WholeTree(entries: seq<Entry>)
    ensures End(entries, 0) == |entries| + 1
  {
    assert forall k: nat | 0 < k <= |entries| :: Level(entries, k) >= 0;
  }

  /** The sizes as they stand. */
  ghost function SizesOf(made: seq<Node>): (sizes: seq<int>)
    reads made
    ensures |sizes| == |made|
  {
    seq(|made|, k requires 0 <= k < |made| reads made => made[k].size)
  }

  /** Every node from `a` up to `b` has the size its subtree adds up to. */
  ghost predicate Sized(sizes: seq<int>, entries: seq<Entry>, a: nat, b: nat)
    requires |sizes| == |entries| + 1 && b <= |sizes|
  {
    forall k: nat | a <= k < b :: sizes[k] == FileSizes(entries, k, End(entries, k))
  }

  /** Sets the size of every folder of a subtree to the sum of the sizes of all files below it,
      however deep; nothing else changes. */
  method CalSize(node: Node, ghost made: seq<Node>, ghost parents: seq<int>, ghost entries: seq<Entry>, ghost i: nat)
      returns (size: int)
    requires Shape(made, parents) && Carries(made, entries) && ParentsRight(entries, parents)
    requires i <= |entries| && made[i] == node
    modifies set n <- made :: n`size
    ensures Shape(made, parents) && Carries(made, entries)
    ensures size == FileSizes(entries, i, End(entries, i))
    ensures Sized(SizesOf(made), entries, i, End(entries, i))
    ensures SizesOf(made)[..i] == old(SizesOf(made)[..i])
    ensures SizesOf(made)[End(entries, i)..] == old(SizesOf(made)[End(entries, i)..])
    decreases |entries| - i
  {
    hide Shape, Carries, ParentsRight, Boundary, FileSizes, KidsFrom, IsFolderNode, Sized, SizesOf;
    Lengths(made, parents, entries);
    OwnSize(entries, i);
    NodeKind(made, entries, i);
    SizedNone(SizesOf(made), entries, i + 1);
    assert node in made;
    if node.url != "" {
      SizedFile(made, entries, i);
      return node.size;
    }
    size := 0;
    ghost var b: nat := i + 1;
    FirstBoundary(entries, i);
    KidsAfter(made, parents, i);
    for c := 0 to |node.children|
      invariant Shape(made, parents) && Carries(made, entries)
      invariant i < b <= End(entries, i) && Boundary(entries, i, b)
      invariant node.children[c..] == PickKids(made, parents, i, b)
      invariant size == FileSizes(entries, i + 1, b)
      invariant Sized(SizesOf(made), entries, i + 1, b)
      invariant SizesOf(made)[..i + 1] == old(SizesOf(made)[..i + 1])
      invariant SizesOf(made)[b..] == old(SizesOf(made)[b..])
    {
      ghost var before := SizesOf(made);
      ChildAtBoundary(made, parents, entries, i, b, node.children[c..]);
      var child := CalSize(node.children[c], made, parents, entries, b);
      FileSizesSplit(entries, i + 1, b, End(entries, b));
      SizedConcat(before, SizesOf(made), entries, i + 1, b, End(entries, b));
      KeptAround(old(SizesOf(made)), before, SizesOf(made), i + 1, b, End(entries, b));
      size := size + child;
      b := End(entries, b);
    }
    ChildAtBoundary(made, parents, entries, i, b, []);
    FileSizesSplit(entries, i, i + 1, End(entries, i));
    ghost var below := SizesOf(made);
    SetSize(node, size, made, parents, entries, i);
    SizedFolder(below, size, entries, i);
    assert below[i := size][..i] == below[..i + 1][..i];
    assert below[i := size][End(entries, i)..] == below[End(entries, i)..];
    assert old(SizesOf(made))[..i] == old(SizesOf(made)[..i + 1])[..i];
  }

  method SetSize(node: Node, size: int, ghost made: seq<Node>, ghost parents: seq<int>, ghost entries: seq<Entry>,
                 ghost i: nat)
    requires Shape(made, parents) && Carries(made, entries) && i <= |entries| && made[i] == node
    requires IsFolderNode(entries, i)
    modifies node`size
    ensures Shape(made, parents) && Carries(made, entries)
    ensures SizesOf(made) == old(SizesOf(made))[i := size]
  {
    node.size := size;
  }

  lemma SizedNone(sizes: seq<int>, entries: seq<Entry>, a: nat)
    requires |sizes| == |entries| + 1 && a <= |sizes|
    ensures Sized(sizes, entries, a, a)
  {
  }

  lemma SizedFile(made: seq<Node>, entries: seq<Entry>, i: nat)
    requires Carries(made, entries) && i <= |entries| && !IsFolderNode(entries, i)
    ensures Sized(SizesOf(made), entries, i, End(entries, i))
  {
    OwnSize(entries, i);
    NodeKind(made, entries, i);
  }

  lemma SizedFolder(sizes: seq<int>, size: int, entries: seq<Entry>, i: nat)
    requires |sizes| == |entries| + 1 && i <= |entries|
    requires Sized(sizes, entries, i + 1, End(entries, i)) && size == FileSizes(entries, i, End(entries, i))
    ensures Sized(sizes[i := size], entries, i, End(entries, i))
  {
  }

  lemma SizedConcat(before: seq<int>, after: seq<int>, entries: seq<Entry>, a: nat, b: nat, c: nat)
    requires |before| == |after| == |entries| + 1 && a <= b <= c <= |after|
    requires Sized(before, entries, a, b) && before[..b] == after[..b] && Sized(after, entries, b, c)
    ensures Sized(after, entries, a, c)
  {
    forall k: nat | a <= k < b ensures after[k] == before[k] {
      assert after[k] == after[..b][k] == before[..b][k];
    }
  }

  /** What two changes leave alone before `a` and after `c`. */
  lemma KeptAround(s0: seq<int>, s1: seq<int>, s2: seq<int>, a: nat, b: nat, c: nat)
    requires |s0| == |s1| == |s2| && a <= b <= c <= |s0|
    requires s1[..a] == s0[..a] && s1[b..] == s0[b..] && s2[..b] == s1[..b] && s2[c..] == s1[c..]
    ensures s2[..a] == s0[..a] && s2[c..] == s0[c..]
  {
    assert s2[..a] == s2[..b][..a] && s1[..a] == s1[..b][..a];
    assert s1[c..] == s1[b..][c - b..] && s0[c..] == s0[b..][c - b..];
  }

  /** A node has a URL iff it is a file, and then the size of its line. */
  lemma NodeKind(made: seq<Node>, entries: seq<Entry>, i: nat)
    requires Carries(made, entries) && i <= |entries|
    ensures made[i].url == "" <==> IsFolderNode(entries, i)
    ensures !IsFolderNode(entries, i) ==> made[i].size == entries[i - 1].file.size
  {
    if i > 0 {
      assert Says(made[i], entries[i - 1]);
    }
  }

  // ---------- Lookup by path ----------

  function NodeName(entries: seq<Entry>, i: nat): string
    requires i <= |entries|
  {
    if i == 0 then "root"
    else
      match entries[i - 1]
      case FolderLine(_, name) => name
      case FileLine(_, file) => file.name
  }

  /** The names from node `i` down to node `k` of its subtree. */
  ghost function PathTo(entries: seq<Entry>, parents: seq<int>, i: nat, k: nat): seq<string>
    requires ParentsRight(entries, parents) && i <= k <= |entries|
    decreases k
  {
    if k == i then [NodeName(entries, i)]
    else if parents[k] < i then []
    else PathTo(entries, parents, i, parents[k]) + [NodeName(entries, k)]
  }

  /** The parent of a node of a subtree is in the subtree too. */
  lemma ParentInSubtree(entries: seq<Entry>, parents: seq<int>, i: nat, k: nat)
    requires ParentsRight(entries, parents) && i <= |entries| && i < k < End(entries, i)
    ensures i <= parents[k] < k
  {
    assert IsParent(entries, parents[k], k);
    assert Open(entries, i, k);
  }

  lemma {:induction false} PathStarts(entries: seq<Entry>, parents: seq<int>, i: nat, k: nat)
    requires ParentsRight(entries, parents) && i <= |entries| && i <= k < End(entries, i)
    ensures PathTo(entries, parents, i, k) != [] && PathTo(entries, parents, i, k)[0] == NodeName(entries, i)
    ensures |PathTo(entries, parents, i, k)| == 1 <==> k == i
    decreases k
  {
    if k > i {
      ParentInSubtree(entries, parents, i, k);
      PathStarts(entries, parents, i, parents[k]);
    }
  }

  lemma {:induction false} PathThroughChild(entries: seq<Entry>, parents: seq<int>, i: nat, b: nat, k: nat)
    requires ParentsRight(entries, parents) && i < b <= |entries| && parents[b] == i && b <= k < End(entries, b)
    ensures PathTo(entries, parents, i, k) == [NodeName(entries, i)] + PathTo(entries, parents, b, k)
    decreases k
  {
    if k > b {
      ParentInSubtree(entries, parents, b, k);
      PathThroughChild(entries, parents, i, b, parents[k]);
    }
  }

  /** No node from `a` up to `b` has that path, seen from `i`. */
  ghost predicate NoMatch(entries: seq<Entry>, parents: seq<int>, i: nat, a: nat, b: nat, paths: seq<string>)
    requires ParentsRight(entries, parents) && i <= a && b <= |entries| + 1
  {
    forall k: nat | a <= k < b :: PathTo(entries, parents, i, k) != paths
  }

  /** Matching a path below a child is matching it below the node, one name shorter. */
  lemma MatchBelowChild(entries: seq<Entry>, parents: seq<int>, i: nat, b: nat, k: nat, paths: seq<string>)
    requires ParentsRight(entries, parents) && i < b <= |entries| && parents[b] == i && b <= k <= End(entries, b)
    requires paths != [] && paths[0] == NodeName(entries, i)
    ensures NoMatch(entries, parents, i, b, k, paths) <==> NoMatch(entries, parents, b, b, k, paths[1..])
    ensures k < End(entries, b) ==>
              (PathTo(entries, parents, i, k) == paths <==> PathTo(entries, parents, b, k) == paths[1..])
  {
    forall k': nat | b <= k' <= k && k' < End(entries, b)
      ensures PathTo(entries, parents, i, k') == paths <==> PathTo(entries, parents, b, k') == paths[1..]
    {
      PathThroughChild(entries, parents, i, b, k');
      assert paths == [paths[0]] + paths[1..];
    }
  }

  lemma NoMatchSplit(entries: seq<Entry>, parents: seq<int>, i: nat, a: nat, b: nat, c: nat, paths: seq<string>)
    requires ParentsRight(entries, parents) && i <= a <= b <= c <= |entries| + 1
    ensures NoMatch(entries, parents, i, a, c, paths)
       <==> NoMatch(entries, parents, i, a, b, paths) && NoMatch(entries, parents, i, b, c, paths)
  {
  }

  /** The cases decided by the node itself. */
  lemma MatchHere(entries: seq<Entry>, parents: seq<int>, i: nat, paths: seq<string>)
    requires ParentsRight(entries, parents) && i <= |entries|
    ensures paths == [] || paths[0] != NodeName(entries, i) ==>
              NoMatch(entries, parents, i, i, End(entries, i), paths)
    ensures |paths| == 1 && paths[0] == NodeName(entries, i) ==> PathTo(entries, parents, i, i) == paths
    ensures |paths| > 1 ==> NoMatch(entries, parents, i, i, i + 1, paths)
    ensures NoMatch(entries, parents, i, i, i, paths)
  {
    forall k: nat | i <= k < End(entries, i)
      ensures PathTo(entries, parents, i, k) != [] && PathTo(entries, parents, i, k)[0] == NodeName(entries, i)
    {
      PathStarts(entries, parents, i, k);
    }
  }

  /** Finds the first line, in the order of the text, whose names from `node` down spell the
      path; null iff there is none. */
  method GetByPath(node: Node, paths: seq<string>, ghost made: seq<Node>, ghost parents: seq<int>,
                   ghost entries: seq<Entry>, ghost i: nat) returns (r: Node?, ghost k: nat)
    requires Shape(made, parents) && Carries(made, entries) && ParentsRight(entries, parents)
    requires i <= |entries| && made[i] == node
    ensures r == null ==> NoMatch(entries, parents, i, i, End(entries, i), paths)
    ensures r != null ==>
              && i <= k < End(entries, i) && r == made[k] && PathTo(entries, parents, i, k) == paths
              && NoMatch(entries, parents, i, i, k, paths)
    decreases |entries| - i
  {
    hide Shape, Carries, ParentsRight, Boundary, KidsFrom, IsFolderNode, NoMatch, PathTo, NodeName;
    Lengths(made, parents, entries);
    NameOf(made, entries, i);
    MatchHere(entries, parents, i, paths);
    k := i;
    if |paths| == 0 || node.name != paths[0] {
      return null, k;
    }
    if |paths| == 1 {
      return node, k;
    }
    ghost var b: nat := i + 1;
    FirstBoundary(entries, i);
    KidsAfter(made, parents, i);
    for c := 0 to |node.children|
      invariant i < b <= End(entries, i) && Boundary(entries, i, b)
      invariant node.children[c..] == PickKids(made, parents, i, b)
      invariant NoMatch(entries, parents, i, i, b, paths)
    {
      ChildAtBoundary(made, parents, entries, i, b, node.children[c..]);
      var tmp;
      tmp, k := GetByPath(node.children[c], paths[1..], made, parents, entries, b);
      MatchBelowChild(entries, parents, i, b, if tmp == null then End(entries, b) else k, paths);
      NoMatchSplit(entries, parents, i, i, b, if tmp == null then End(entries, b) else k, paths);
      if tmp != null {
        return tmp, k;
      }
      b := End(entries, b);
    }
    ChildAtBoundary(made, parents, entries, i, b, []);
    r := null;
  }

  lemma NameOf(made: seq<Node>, entries: seq<Entry>, i: nat)
    requires Carries(made, entries) && i <= |entries|
    ensures made[i].name == NodeName(entries, i)
  {
    if i > 0 {
      assert Says(made[i], entries[i - 1]);
    }
  }

  // ---------- Init ----------

  /** The tree of the text with all its sizes: the walk from the root is the lines, in order, with what
      they say, and every node has the size of the files below it. */
  ghost predicate Holds(root: Node, nodes: set<Node>, entries: seq<Entry>)
    reads nodes
  {
    var walk := Traverse(root, nodes);
    && |walk| == |entries| + 1 && walk[0] == root && (forall n <- walk :: n in nodes)
    && (forall n <- nodes, child <- n.children :: child in nodes)
    && (forall i | 0 <= i < |entries| :: Says(walk[i + 1], entries[i]))
    && (forall i | 0 <= i < |walk| :: walk[i].size == FileSizes(entries, i, End(entries, i)))
  }

  /** Builds the tree and adds up the sizes; fails with the error of the first bad line. */
  method Init(lines: seq<string>, files: FileLines)
      returns (r: Result<Node, Error>, ghost made: seq<Node>, ghost parents: seq<int>)
    ensures match ReadAll(lines, files)
            case Err(e) => r == Err(e)
            case Ok(entries) =>
              && Shape(made, parents) && Carries(made, entries) && ParentsRight(entries, parents)
              && r == Ok(made[0]) && Holds(r.value, (set n <- made), entries)
  {
    hide Shape, Carries, ParentsRight, Sized, End, Traverse;
    r, made, parents := BuildTree(lines, files);
    if r.Ok? {
      ghost var entries := ReadAll(lines, files).value;
      Lengths(made, parents, entries);
      var _ := CalSize(r.value, made, parents, entries, 0);
      TreeIsLineOrder(made, parents, entries);
      WholeTree(entries);
      AllSized(made, entries);
      ChildrenMade(made, parents);
    }
  }

  lemma ChildrenMade(made: seq<Node>, parents: seq<int>)
    requires Shape(made, parents)
    ensures forall n <- made, child <- n.children :: child in made
  {
    forall n <- made, child <- n.children ensures child in made {
      var i :| 0 <= i < |made| && made[i] == n;
      assert n.children == Pick(made, KidsFrom(parents, i, 0));
    }
  }

  lemma AllSized(made: seq<Node>, entries: seq<Entry>)
    requires |made| == |entries| + 1 && Sized(SizesOf(made), entries, 0, |made|)
    ensures forall i | 0 <= i < |made| :: made[i].size == FileSizes(entries, i, End(entries, i))
  {
  }

  /** A line of level 0 is found under its name alone. */
  lemma TopLevelPath(entries: seq<Entry>, parents: seq<int>, k: nat)
    requires ParentsRight(entries, parents) && 0 < k <= |entries| && entries[k - 1].level == 0
    ensures PathTo(entries, parents, 0, k) == ["root", NodeName(entries, k)]
  {
    assert IsParent(entries, parents[k], k);
    assert Level(entries, parents[k]) < Level(entries, k);
  }

  /** The node of the first line that has the path, counting its names from the root, with what that line
      says, and for a folder with the sum of the sizes of all files below it; null iff no line has it. */
  ghost predicate IsFound(node: Node?, entries: seq<Entry>, parents: seq<int>, paths: seq<string>, k: nat)
    requires ParentsRight(entries, parents)
    reads node
  {
    if node == null then NoMatch(entries, parents, 0, 0, |entries| + 1, paths)
    else
      && k <= |entries| && PathTo(entries, parents, 0, k) == paths && NoMatch(entries, parents, 0, 0, k, paths)
      && (k > 0 && entries[k - 1].FileLine? ==> Says(node, entries[k - 1]))
      && node.name == NodeName(entries, k) && node.size == FileSizes(entries, k, End(entries, k))
  }

  /** A path looked up from the root. */
  method GetFromRoot(root: Node, paths: seq<string>, ghost made: seq<Node>, ghost parents: seq<int>,
                     ghost entries: seq<Entry>) returns (node: Node?, ghost k: nat)
    requires Shape(made, parents) && Carries(made, entries) && ParentsRight(entries, parents) && made[0] == root
    requires Holds(root, (set n <- made), entries)
    ensures IsFound(node, entries, parents, paths, k)
  {
    hide Shape, Carries, ParentsRight, End, Traverse, PathTo, Says, NodeName, Holds, NoMatch;
    Lengths(made, parents, entries);
    WholeTree(entries);
    node, k := GetByPath(root, paths, made, parents, entries, 0);
    if node != null {
      HeldBy(made, parents, entries, k);
      NameOf(made, entries, k);
    }
  }

  /** The text read and a path looked up in it. */
  method Get(lines: seq<string>, files: FileLines, paths: seq<string>)
      returns (r: Result<Node?, Error>, ghost parents: seq<int>, ghost k: nat)
    ensures match ReadAll(lines, files)
            case Err(e) => r == Err(e)
            case Ok(entries) =>
              r.Ok? && ParentsRight(entries, parents) && IsFound(r.value, entries, parents, paths, k)
  {
    hide Shape, Carries, ParentsRight, Holds, IsFound, ReadAll;
    var root;
    ghost var made;
    root, made, parents := Init(lines, files);
    if root.Err? {
      return Err(root.error), parents, 0;
    }
    var node;
    node, k := GetFromRoot(root.value, paths, made, parents, ReadAll(lines, files).value);
    r := Ok(node);
  }

  lemma HeldBy(made: seq<Node>, parents: seq<int>, entries: seq<Entry>, k: nat)
    requires Shape(made, parents) && Carries(made, entries) && ParentsRight(entries, parents) && k <= |entries|
    requires Holds(made[0], (set n <- made), entries)
    ensures made[k].size == FileSizes(entries, k, End(entries, k)) && (k > 0 ==> Says(made[k], entries[k - 1]))
  {
    TreeIsLineOrder(made, parents, entries);
  }
}
