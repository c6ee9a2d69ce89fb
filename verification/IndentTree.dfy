/** 123 link driver: building the folder tree with a stack of open folders. */
module IndentTree {
  import opened Results
  import opened IndentLines

  /** A node of the folder tree.  Folders have no URL. */
  class Node {
    var url: string
    var name: string
    var level: int
    var modified: int
    var size: int
    var children: seq<Node>

    constructor (level: int, name: string)
      ensures url == "" && this.name == name && this.level == level
      ensures size == 0 && modified == 0 && children == []
    {
      url, this.name, this.level, modified, size, children := "", name, level, 0, 0, [];
    }
  }

  // ---------- The shape of the tree, as a parent vector ----------

  /** The nodes with parent `i`, from node `j` on, in order. */
  function KidsFrom(parents: seq<int>, i: int, j: nat): (kids: seq<nat>)
    requires j <= |parents|
    ensures forall t | 0 <= t < |kids| :: j <= kids[t] < |parents| && parents[kids[t]] == i
    decreases |parents| - j
  {
    if j == |parents| then []
    else (if parents[j] == i then [j] else []) + KidsFrom(parents, i, j + 1)
  }

  lemma {:induction false} KidsSnoc(parents: seq<int>, p: int, i: int, j: nat)
    requires j <= |parents|
    ensures KidsFrom(parents + [p], i, j) == KidsFrom(parents, i, j) + if p == i then [|parents|] else []
    decreases |parents| - j
  {
    if j < |parents| {
      KidsSnoc(parents, p, i, j + 1);
    } else {
      assert KidsFrom(parents + [p], i, j + 1) == [];
    }
  }

  function Pick(made: seq<Node>, indices: seq<nat>): (r: seq<Node>)
    requires forall t | 0 <= t < |indices| :: indices[t] < |made|
    ensures |r| == |indices|
  {
    seq(|indices|, t requires 0 <= t < |indices| => made[indices[t]])
  }

  /** `made` lists all nodes in the order they were made, each one with its parent's place in
      the list; the children of a node are exactly the nodes it is the parent of, in order. */
  ghost predicate Shape(made: seq<Node>, parents: seq<int>)
    reads made
  {
    && |made| == |parents| > 0 && parents[0] == -1
    && (forall i, j | 0 <= i < j < |made| :: made[i] != made[j])
    && (forall i | 0 < i < |parents| :: 0 <= parents[i] < i)
    && (forall i | 0 <= i < |made| :: made[i].children == Pick(made, KidsFrom(parents, i, 0)))
  }

  /** The nodes carry what the lines say. */
  ghost predicate Carries(made: seq<Node>, entries: seq<Entry>)
    reads made
  {
    && |made| == |entries| + 1
    && made[0].level == -1 && made[0].name == "root" && made[0].url == ""
    && forall i | 0 <= i < |entries| :: Says(made[i + 1], entries[i])
  }

  /** Every line hangs under the parent its level demands. */
  ghost predicate ParentsRight(entries: seq<Entry>, parents: seq<int>) {
    && |parents| == |entries| + 1
    && forall j: nat | 0 < j < |parents| :: parents[j] >= 0 && IsParent(entries, parents[j], j)
  }

  // ---------- The stack ----------

  /** The stack holds the folders still open at the last node, outermost first, and their
      levels strictly increase; the root is always at the bottom. */
  ghost predicate StackRight(entries: seq<Entry>, open: seq<nat>) {
    && open != [] && open[0] == 0
    && (forall q: nat :: q in open <==> q <= |entries| && Open(entries, q, |entries|))
    && (forall a, b | 0 <= a < b < |open| :: open[a] < open[b])
  }

  lemma LevelsIncrease(entries: seq<Entry>, open: seq<nat>)
    requires StackRight(entries, open)
    ensures forall a | 0 <= a < |open| :: open[a] <= |entries|
    ensures forall a, b | 0 <= a < b < |open| :: Level(entries, open[a]) < Level(entries, open[b])
  {
    forall a | 0 <= a < |open| ensures open[a] <= |entries| && Open(entries, open[a], |entries|) {
      assert open[a] in open;
    }
  }

  /** Popping every folder whose level is not below that of the new line leaves its parent on
      top; pushing the line, if it is a folder, makes the stack right again. */
  lemma NextLine(entries: seq<Entry>, open: seq<nat>, m: nat, entry: Entry)
    requires StackRight(entries, open) && 0 < m <= |open|
    requires forall a | 0 <= a < |open| :: open[a] <= |entries|
    requires forall a | m <= a < |open| :: Level(entries, open[a]) >= entry.level
    requires Level(entries, open[m - 1]) < entry.level
    ensures IsParent(entries + [entry], open[m - 1], |entries| + 1)
    ensures StackRight(entries + [entry], open[..m] + if entry.FolderLine? then [|entries| + 1] else [])
  {
    var es, n := entries + [entry], |entries|;
    LevelsIncrease(entries, open);
    forall k: nat | k <= n
      ensures Level(es, k) == Level(entries, k) && IsFolderNode(es, k) == IsFolderNode(entries, k)
    {
    }
    var j := n + 1;
    forall q: nat | q <= n ensures Open(es, q, j) <==> q in open[..m] {
      OpenNext(entries, entry, q);
      if q in open {
        var a :| 0 <= a < |open| && open[a] == q;
        if a < m {
          assert open[..m][a] == q;
        }
      }
    }
    assert open[..m][m - 1] == open[m - 1];
    var open' := open[..m] + if entry.FolderLine? then [j] else [];
    forall q: nat ensures q in open' <==> q <= j && Open(es, q, j) {
    }
    forall q: nat | open[m - 1] < q < j ensures !Open(es, q, j) {
    }
  }

  /** A folder stays open past one more line iff it was open and its level is lower. */
  lemma OpenNext(entries: seq<Entry>, entry: Entry, q: nat)
    requires q <= |entries|
    ensures Open(entries + [entry], q, |entries| + 1)
       <==> Open(entries, q, |entries|) && Level(entries, q) < entry.level
  {
    var es := entries + [entry];
    forall k: nat | k <= |entries| ensures Level(es, k) == Level(entries, k) {
    }
    assert Level(es, |entries| + 1) == entry.level;
    if Open(es, q, |entries| + 1) {
      forall k | q < k <= |entries| ensures Level(entries, q) < Level(entries, k) {
        assert Level(es, q) < Level(es, k);
      }
    }
  }

  // ---------- Building ----------

  /** Hangs a new node under an existing one. */
  method AddChild(parent: Node, node: Node, ghost made: seq<Node>, ghost parents: seq<int>, ghost p: nat,
                  ghost entries: seq<Entry>, ghost entry: Entry)
    requires Shape(made, parents) && p < |made| && made[p] == parent && Carries(made, entries)
    requires node !in made && node.children == [] && Says(node, entry)
    modifies parent`children
    ensures Shape(made + [node], parents + [p]) && Carries(made + [node], entries + [entry])
  {
    hide KidsFrom, Pick;
    parent.children := parent.children + [node];
    ghost var made', parents' := made + [node], parents + [p];
    forall i | 0 <= i < |made'| ensures made'[i].children == Pick(made', KidsFrom(parents', i, 0)) {
      KidsSnoc(parents, p, i, 0);
      if i == |made| {
        NoKids(parents, i, 0);
      } else {
        PickGrows(made, node, KidsFrom(parents, i, 0));
        assert KidsFrom(parents, i, 0) + [] == KidsFrom(parents, i, 0);
      }
    }
  }

  lemma PickGrows(made: seq<Node>, node: Node, indices: seq<nat>)
    requires forall t | 0 <= t < |indices| :: indices[t] < |made|
    ensures Pick(made + [node], indices) == Pick(made, indices)
    ensures Pick(made + [node], indices + [|made|]) == Pick(made, indices) + [node]
  {
  }

  lemma {:induction false} NoKids(parents: seq<int>, i: int, j: nat)
    requires j <= |parents| && forall k | j <= k < |parents| :: parents[k] != i
    ensures KidsFrom(parents, i, j) == []
    decreases |parents| - j
  {
    if j < |parents| {
      NoKids(parents, i, j + 1);
    }
  }

  /** How many blanks a line starts with. */
  method Indent(line: string) returns (indent: nat)
    ensures indent == LeadingSpaces(line)
  {
    indent := 0;
    while indent < |line| && line[indent] == ' '
      invariant indent <= |line| && forall i | 0 <= i < indent :: line[i] == ' '
    {
      indent := indent + 1;
    }
    SpacesCounted(line, indent);
  }

  lemma {:induction false} SpacesCounted(line: string, n: nat)
    requires n <= |line| && (forall i | 0 <= i < n :: line[i] == ' ') && (n < |line| ==> line[n] != ' ')
    ensures LeadingSpaces(line) == n
  {
    if n > 0 {
      SpacesCounted(line[1..], n - 1);
    }
  }

  /** The tree and the stack half way through the text. */
  ghost predicate Building(made: seq<Node>, parents: seq<int>, entries: seq<Entry>, stack: seq<Node>, open: seq<nat>)
    reads made
  {
    && Shape(made, parents) && Carries(made, entries) && ParentsRight(entries, parents)
    && StackRight(entries, open) && |stack| == |open|
    && forall a | 0 <= a < |open| :: open[a] < |made| && stack[a] == made[open[a]]
  }

  /** Pops the folders whose level is not below that of the new line; the root always stays. */
  method PopTo(stack: seq<Node>, level: nat, ghost made: seq<Node>, ghost parents: seq<int>,
               ghost entries: seq<Entry>, ghost open: seq<nat>) returns (m: nat)
    requires Building(made, parents, entries, stack, open)
    ensures 0 < m <= |stack|
    ensures forall a | m <= a < |open| :: Level(entries, open[a]) >= level
    ensures Level(entries, open[m - 1]) < level
  {
    LevelsIncrease(entries, open);
    m := |stack|;
    while level <= stack[m - 1].level
      invariant 0 < m <= |stack|
      invariant forall a | m <= a < |open| :: Level(entries, open[a]) >= level
    {
      NodeLevel(made, entries, open[m - 1]);
      m := m - 1;
    }
    NodeLevel(made, entries, open[m - 1]);
  }

  lemma NodeLevel(made: seq<Node>, entries: seq<Entry>, i: nat)
    requires Carries(made, entries) && i < |made|
    ensures made[i].level == Level(entries, i)
  {
    if i > 0 {
      assert made[i].level == entries[i - 1].level;
    }
  }

  /** The node that a line asks for. */
  method MakeNode(entry: Entry) returns (node: Node)
    requires entry.FileLine? ==> entry.file.url != ""
    ensures fresh(node) && node.children == [] && Says(node, entry)
  {
    match entry
    case FolderLine(level, name) =>
      node := new Node(level, name);
    case FileLine(level, file) =>
      node := new Node(level, file.name);
      node.url, node.size, node.modified := file.url, file.size, file.modified;
  }

  /** A node says what its line says. */
  ghost predicate Says(node: Node, entry: Entry)
    reads node
  {
    && node.level == entry.level
    && match entry
       case FolderLine(_, name) => node.name == name && node.url == ""
       case FileLine(_, file) =>
         && node.url == file.url != "" && node.name == file.name
         && node.size == file.size && node.modified == file.modified
  }

  lemma ParentsGrow(entries: seq<Entry>, parents: seq<int>, entry: Entry, p: nat)
    requires ParentsRight(entries, parents) && IsParent(entries + [entry], p, |entries| + 1)
    ensures ParentsRight(entries + [entry], parents + [p])
  {
    var es := entries + [entry];
    forall j: nat | 0 < j < |parents| ensures IsParent(es, parents[j], j) {
      SameParent(entries, entry, parents[j], j);
    }
  }

  /** Later lines do not change the parent of an earlier one. */
  lemma SameParent(entries: seq<Entry>, entry: Entry, p: nat, j: nat)
    requires 0 < j <= |entries| && IsParent(entries, p, j)
    ensures IsParent(entries + [entry], p, j)
  {
    var es := entries + [entry];
    forall k: nat | k <= |entries|
      ensures Level(es, k) == Level(entries, k) && IsFolderNode(es, k) == IsFolderNode(entries, k)
    {
    }
    forall q: nat | q <= j ensures Open(es, q, j) == Open(entries, q, j) {
      if Open(es, q, j) {
        forall k | q < k <= j ensures Level(entries, q) < Level(entries, k) {
          assert Level(es, q) < Level(es, k);
        }
      }
    }
  }

  /** Adds a line to the tree and, if it is a folder, to the stack. */
  method AddEntry(stack: seq<Node>, entry: Entry, ghost made: seq<Node>, ghost parents: seq<int>,
                  ghost entries: seq<Entry>, ghost open: seq<nat>)
      returns (stack': seq<Node>, node: Node, ghost parents': seq<int>, ghost open': seq<nat>)
    requires Building(made, parents, entries, stack, open)
    requires entry.FileLine? ==> entry.file.url != ""
    modifies made
    ensures fresh(node) && Building(made + [node], parents', entries + [entry], stack', open')
  {
    hide Building, Shape, Carries, Says, ParentsRight, StackRight, IsParent, Open, Level;
    var m := PopTo(stack, entry.level, made, parents, entries, open);
    BuildingEnd(made, parents, entries, stack, open);
    node := MakeNode(entry);
    var parent := stack[m - 1];
    ghost var p := open[m - 1];
    NextLine(entries, open, m, entry);
    ParentsGrow(entries, parents, entry, p);
    AddChild(parent, node, made, parents, p, entries, entry);
    parents' := parents + [p];
    stack' := stack[..m] + if entry.FolderLine? then [node] else [];
    open' := open[..m] + if entry.FolderLine? then [|made|] else [];
    BuildingAgain(made + [node], parents', entries + [entry], stack', open');
  }

  lemma BuildingAgain(made: seq<Node>, parents: seq<int>, entries: seq<Entry>, stack: seq<Node>, open: seq<nat>)
    requires Shape(made, parents) && Carries(made, entries) && ParentsRight(entries, parents)
    requires StackRight(entries, open) && |stack| == |open|
    requires forall a | 0 <= a < |open| :: open[a] < |made| && stack[a] == made[open[a]]
    ensures Building(made, parents, entries, stack, open)
  {
  }

  lemma BuildingStart(root: Node)
    requires root.level == -1 && root.name == "root" && root.url == "" && root.children == []
    ensures Building([root], [-1], [], [root], [0])
  {
  }

  lemma BuildingEnd(made: seq<Node>, parents: seq<int>, entries: seq<Entry>, stack: seq<Node>, open: seq<nat>)
    requires Building(made, parents, entries, stack, open)
    ensures Shape(made, parents) && Carries(made, entries) && ParentsRight(entries, parents)
    ensures |made| == |entries| + 1 && StackRight(entries, open) && |stack| == |open|
    ensures forall a | 0 <= a < |open| :: open[a] <= |entries| && stack[a] == made[open[a]]
  {
  }

  /** Reads one line. */
  method ReadOne(line: string, files: FileLines) returns (r: Result<Option<Entry>, Error>)
    ensures r == ReadLine(line, files)
  {
    var indent := Indent(line);
    if indent % 2 != 0 {
      return Err(OddIndent);
    }
    var level := indent / 2;
    var text := TrimSpace(line[indent..]);
    if text == "" {
      return Ok(None);
    }
    if IsFolder(text) {
      return Ok(Some(FolderLine(level, text[..|text| - 1])));
    }
    if text !in files {
      return Err(BadFileLine);
    }
    return Ok(Some(FileLine(level, files[text])));
  }

  /** Reads the text line by line, keeping the folders still open on a stack.  On success the
      tree holds one node per line that is not blank, in line order, each under the parent
      its level demands; otherwise the error is that of the first bad line. */
  method BuildTree(lines: seq<string>, files: FileLines)
      returns (r: Result<Node, Error>, ghost made: seq<Node>, ghost parents: seq<int>)
    ensures match ReadAll(lines, files)
            case Err(e) => r == Err(e)
            case Ok(entries) =>
              && Shape(made, parents) && Carries(made, entries) && ParentsRight(entries, parents)
              && r == Ok(made[0]) && fresh(made)
  {
    hide Building, Shape, Carries, ParentsRight, ReadLine;
    var root := new Node(-1, "root");
    var stack := [root];
    made, parents := [root], [-1];
    ghost var entries: seq<Entry> := [];
    ghost var open: seq<nat> := [0];
    BuildingStart(root);
    for n := 0 to |lines|
      invariant ReadAll(lines[..n], files) == Ok(entries)
      invariant made != [] && root == made[0] && fresh(made)
      invariant Building(made, parents, entries, stack, open)
    {
      assert lines[..n + 1][..n] == lines[..n];
      var line := ReadOne(lines[n], files);
      match line {
        case Err(e) =>
          FirstErrorWins(lines, n + 1, files);
          return Err(e), made, parents;
        case Ok(None) =>
        case Ok(Some(entry)) =>
          UrlPresent(lines[n], files);
          var node;
          stack, node, parents, open := AddEntry(stack, entry, made, parents, entries, open);
          made := made + [node];
          entries := entries + [entry];
      }
    }
    assert lines[..|lines|] == lines;
    BuildingEnd(made, parents, entries, stack, open);
    r := Ok(root);
  }

  lemma UrlPresent(line: string, files: FileLines)
    ensures var r := ReadLine(line, files);
            r.Ok? && r.value.Some? && r.value.value.FileLine? ==> r.value.value.file.url != ""
  {
  }
}
