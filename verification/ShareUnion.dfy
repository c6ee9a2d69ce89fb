/** 139 share mode: looking a path up in the merged tree agrees with walking each share alone. */
module ShareUnion {
  import opened Results
  import opened ShareCodec
  import opened ShareOverlay

  // ---------- Walking one share alone ----------

  /** The nodes that a path of folder names reaches from one node, without any merging. */
  function Walk(shares: Shares, ref: ShareRef, parts: seq<Str>): seq<ShareRef>
    decreases |parts|, 0, 0
  {
    if parts == [] then [ref]
    else WalkAll(shares, FoldersNamed(ChildrenOf(shares, ref), parts[0]), parts[1..])
  }

  /** The nodes reached from several nodes, node after node. */
  function WalkAll(shares: Shares, refs: seq<ShareRef>, parts: seq<Str>): seq<ShareRef>
    decreases |parts|, 1, |refs|
  {
    if refs == [] then []
    else WalkAll(shares, refs[..|refs| - 1], parts) + Walk(shares, refs[|refs| - 1], parts)
  }

  lemma WalkAllSnoc(shares: Shares, refs: seq<ShareRef>, ref: ShareRef, parts: seq<Str>)
    ensures WalkAll(shares, refs + [ref], parts) == WalkAll(shares, refs, parts) + Walk(shares, ref, parts)
  {
    assert (refs + [ref])[..|refs|] == refs;
  }

  lemma WalkFromNothing(shares: Shares, parts: seq<Str>)
    ensures WalkAll(shares, [], parts) == []
  {
  }

  lemma {:induction false} WalkAllConcat(shares: Shares, a: seq<ShareRef>, b: seq<ShareRef>, parts: seq<Str>)
    ensures WalkAll(shares, a + b, parts) == WalkAll(shares, a, parts) + WalkAll(shares, b, parts)
    decreases |b|
  {
    hide WalkAll, Walk;
    if b == [] {
      assert a + b == a;
      WalkFromNothing(shares, parts);
    } else {
      var b', last := b[..|b| - 1], b[|b| - 1];
      assert b == b' + [last] && a + b == (a + b') + [last];
      WalkAllConcat(shares, a, b', parts);
      WalkAllSnoc(shares, a + b', last, parts);
      WalkAllSnoc(shares, b', last, parts);
    }
  }

  lemma {:induction false} FoldersConcat(a: seq<Child>, b: seq<Child>, name: Str)
    ensures FoldersNamed(a + b, name) == FoldersNamed(a, name) + FoldersNamed(b, name)
    decreases |b|
  {
    if b == [] {
      assert a + b == a;
    } else {
      var b', last := b[..|b| - 1], b[|b| - 1];
      assert b == b' + [last] && a + b == (a + b') + [last];
      FoldersConcat(a, b', name);
      FoldersSnoc(a + b', last, name);
      FoldersSnoc(b', last, name);
    }
  }

  /** Merging level by level reaches the same nodes in the same order as walking depth first. */
  lemma {:induction false} WalkStep(shares: Shares, refs: seq<ShareRef>, parts: seq<Str>)
    requires parts != []
    ensures WalkAll(shares, refs, parts)
         == WalkAll(shares, FoldersNamed(AllChildren(shares, refs), parts[0]), parts[1..])
    decreases |refs|
  {
    if refs != [] {
      var n := |refs| - 1;
      WalkStep(shares, refs[..n], parts);
      var before, own := AllChildren(shares, refs[..n]), ChildrenOf(shares, refs[n]);
      FoldersConcat(before, own, parts[0]);
      WalkAllConcat(shares, FoldersNamed(before, parts[0]), FoldersNamed(own, parts[0]), parts[1..]);
    }
  }

  lemma {:induction false} WalkNowhere(shares: Shares, refs: seq<ShareRef>)
    ensures WalkAll(shares, refs, []) == refs
    decreases |refs|
  {
    if refs != [] {
      WalkNowhere(shares, refs[..|refs| - 1]);
      assert refs == refs[..|refs| - 1] + [refs[|refs| - 1]];
    }
  }

  // ---------- Walking, in terms of what the server lists ----------

  /** The server lists a folder of that name with that node, under a node of a share. */
  ghost predicate HasFolder(shares: Shares, at: ShareRef, name: Str, node: Str) {
    var listed := ShareRef(at.link, at.password, if at.node == [] then ROOT else at.node);
    listed in shares && Entry(node, name) in shares[listed].folders
  }

  lemma HasFolderIff(shares: Shares, at: ShareRef, name: Str, r: ShareRef)
    ensures Child(name, true, r) in ChildrenOf(shares, at)
       <==> r.link == at.link && r.password == at.password && HasFolder(shares, at, name, r.node)
  {
    Members(shares, at);
    hide ChildrenOf;
    var cs := ChildrenOf(shares, at);
    var listed := ShareRef(at.link, at.password, if at.node == [] then ROOT else at.node);
    if listed in shares {
      var folders := shares[listed].folders;
      forall i | |folders| <= i < |cs| ensures !cs[i].isDir {
        var file := shares[listed].files[i - |folders|];
      }
      if HasFolder(shares, at, name, r.node) && r.link == at.link && r.password == at.password {
        var i :| 0 <= i < |folders| && folders[i] == Entry(r.node, name);
        assert cs[i] == Child(name, true, r);
      }
      if Child(name, true, r) in cs {
        var i :| 0 <= i < |cs| && cs[i] == Child(name, true, r);
        assert folders[i] == Entry(r.node, name);
      }
    }
  }

  lemma {:induction false} FoldersAre(cs: seq<Child>, name: Str, r: ShareRef)
    ensures r in FoldersNamed(cs, name) <==> Child(name, true, r) in cs
  {
    if cs != [] {
      var n := |cs| - 1;
      assert cs == cs[..n] + [cs[n]];
      FoldersAre(cs[..n], name, r);
    }
  }

  lemma {:induction false} ReachedFromSome(shares: Shares, refs: seq<ShareRef>, parts: seq<Str>, r: ShareRef)
    ensures r in WalkAll(shares, refs, parts) <==> exists q <- refs :: r in Walk(shares, q, parts)
    decreases |refs|
  {
    hide Walk, WalkAll;
    if refs == [] {
      WalkFromNothing(shares, parts);
    } else {
      var n := |refs| - 1;
      assert refs == refs[..n] + [refs[n]];
      WalkAllSnoc(shares, refs[..n], refs[n], parts);
      ReachedFromSome(shares, refs[..n], parts, r);
    }
  }

  /** The nodes lead from one to the next through the folders of these names, all in one share. */
  ghost predicate Chain(shares: Shares, from: ShareRef, names: seq<Str>, nodes: seq<Str>) {
    && |nodes| == |names| + 1 && nodes[0] == from.node
    && forall k | 0 <= k < |names| ::
         HasFolder(shares, ShareRef(from.link, from.password, nodes[k]), names[k], nodes[k + 1])
  }

  /** Walking one share alone reaches exactly the nodes of that share that such a chain leads to. */
  lemma {:induction false} WalkIffChain(shares: Shares, from: ShareRef, names: seq<Str>, r: ShareRef)
    ensures r in Walk(shares, from, names)
       <==> && r.link == from.link && r.password == from.password
            && exists nodes :: Chain(shares, from, names, nodes) && nodes[|names|] == r.node
    decreases |names|
  {
    hide ChildrenOf, FoldersNamed, HasFolder, WalkAll;
    if names == [] {
      assert Chain(shares, from, names, [from.node]);
    } else {
      var next := FoldersNamed(ChildrenOf(shares, from), names[0]);
      ReachedFromSome(shares, next, names[1..], r);
      hide Walk;
      assert r in Walk(shares, from, names) <==> exists q <- next :: r in Walk(shares, q, names[1..]);
      forall q ensures q in next
                  <==> q.link == from.link && q.password == from.password && HasFolder(shares, from, names[0], q.node) {
        FoldersAre(ChildrenOf(shares, from), names[0], q);
        HasFolderIff(shares, from, names[0], q);
      }
      if q :| q in next && r in Walk(shares, q, names[1..]) {
        WalkIffChain(shares, q, names[1..], r);
        var nodes :| Chain(shares, q, names[1..], nodes) && nodes[|names| - 1] == r.node;
        LongerChain(shares, from, names, q, nodes);
      }
      if r.link == from.link && r.password == from.password {
        forall nodes | Chain(shares, from, names, nodes) && nodes[|names|] == r.node
          ensures exists q :: q in next && r in Walk(shares, q, names[1..])
        {
          var q := ShareRef(from.link, from.password, nodes[1]);
          ShorterChain(shares, from, names, nodes);
          WalkIffChain(shares, q, names[1..], r);
        }
      }
    }
  }

  lemma LongerChain(shares: Shares, from: ShareRef, names: seq<Str>, q: ShareRef, nodes: seq<Str>)
    requires names != [] && q.link == from.link && q.password == from.password
    requires HasFolder(shares, from, names[0], q.node) && Chain(shares, q, names[1..], nodes)
    ensures Chain(shares, from, names, [from.node] + nodes)
  {
    hide HasFolder;
    var all := [from.node] + nodes;
    forall k | 0 <= k < |names|
      ensures HasFolder(shares, ShareRef(from.link, from.password, all[k]), names[k], all[k + 1])
    {
      if k > 0 {
        assert HasFolder(shares, ShareRef(q.link, q.password, nodes[k - 1]), names[1..][k - 1], nodes[k]);
      }
    }
  }

  lemma ShorterChain(shares: Shares, from: ShareRef, names: seq<Str>, nodes: seq<Str>)
    requires names != [] && Chain(shares, from, names, nodes)
    ensures HasFolder(shares, from, names[0], nodes[1])
    ensures Chain(shares, ShareRef(from.link, from.password, nodes[1]), names[1..], nodes[1..])
  {
    hide HasFolder;
    forall k | 0 <= k < |names| - 1
      ensures HasFolder(shares, ShareRef(from.link, from.password, nodes[1..][k]), names[1..][k], nodes[1..][k + 1])
    {
      assert HasFolder(shares, ShareRef(from.link, from.password, nodes[k + 1]), names[k + 1], nodes[k + 2]);
    }
    assert from == ShareRef(from.link, from.password, nodes[0]);
  }

  // ---------- Exactly when the merged lookup finds a folder ----------

  ghost predicate AllReadable(refs: seq<ShareRef>) {
    forall r <- refs :: Readable(r)
  }

  lemma {:induction false} ReadablesAll(refs: seq<ShareRef>)
    requires AllReadable(refs)
    ensures Readables(refs) == refs && Gathered(refs) == refs
  {
    if refs != [] {
      var n := |refs| - 1;
      assert refs == refs[..n] + [refs[n]];
      ReadablesAll(refs[..n]);
    }
  }

  /** A node can be read back iff its share can, so its members can be iff it can. */
  lemma {:induction false} FoldersOfReadables(shares: Shares, refs: seq<ShareRef>, name: Str)
    ensures FoldersNamed(AllChildren(shares, Readables(refs)), name)
         == Readables(FoldersNamed(AllChildren(shares, refs), name))
  {
    if refs != [] {
      hide FoldersNamed, ChildrenOf, Readable;
      var n := |refs| - 1;
      FoldersOfReadables(shares, refs[..n], name);
      var own := ChildrenOf(shares, refs[n]);
      SameLink(shares, refs[n]);
      FoldersConcat(AllChildren(shares, refs[..n]), own, name);
      ReadablesConcat(FoldersNamed(AllChildren(shares, refs[..n]), name), FoldersNamed(own, name));
      OwnFolders(own, refs[n], name);
      if Readable(refs[n]) {
        assert (Readables(refs[..n]) + [refs[n]])[..|Readables(refs[..n])|] == Readables(refs[..n]);
        FoldersConcat(AllChildren(shares, Readables(refs[..n])), own, name);
      } else {
        assert Readables(refs[..n]) + [] == Readables(refs[..n]);
      }
    } else {
      NoFoldersInNothing(name);
    }
  }

  lemma NoFoldersInNothing(name: Str)
    ensures FoldersNamed([], name) == []
  {
  }

  lemma SameLink(shares: Shares, ref: ShareRef)
    ensures forall c <- ChildrenOf(shares, ref) :: Readable(c.ref) <==> Readable(ref)
  {
    forall c <- ChildrenOf(shares, ref) ensures c.ref.link == ref.link {
    }
  }

  lemma {:induction false} OwnFolders(cs: seq<Child>, ref: ShareRef, name: Str)
    requires forall c <- cs :: Readable(c.ref) <==> Readable(ref)
    ensures Readables(FoldersNamed(cs, name)) == if Readable(ref) then FoldersNamed(cs, name) else []
  {
    hide Readable;
    if cs != [] {
      var n := |cs| - 1;
      assert cs == cs[..n] + [cs[n]];
      OwnFolders(cs[..n], ref, name);
      ReadablesSnoc(FoldersNamed(cs[..n], name), cs[n].ref);
      assert FoldersNamed(cs[..n], name) + [] == FoldersNamed(cs[..n], name);
    }
  }

  lemma {:induction false} ReadablesConcat(a: seq<ShareRef>, b: seq<ShareRef>)
    ensures Readables(a + b) == Readables(a) + Readables(b)
    decreases |b|
  {
    hide Readables;
    if b == [] {
      assert a + b == a;
      NoReadables();
    } else {
      var b', last := b[..|b| - 1], b[|b| - 1];
      assert b == b' + [last] && a + b == (a + b') + [last];
      ReadablesConcat(a, b');
      ReadablesSnoc(a + b', last);
      ReadablesSnoc(b', last);
    }
  }

  lemma NoReadables()
    ensures Readables([]) == []
  {
  }

  /** At every step, the first member of that name among the nodes reached so far is a folder. */
  ghost predicate Unshadowed(shares: Shares, refs: seq<ShareRef>, parts: seq<Str>) {
    forall k | 0 <= k < |parts| :: FolderFirst(shares, WalkAll(shares, refs, parts[..k]), parts[k])
  }

  ghost predicate FolderFirst(shares: Shares, refs: seq<ShareRef>, name: Str) {
    match FirstNamed(AllChildren(shares, refs), name)
    case None => false
    case Some(c) => c.isDir
  }

  lemma UnshadowedStep(shares: Shares, refs: seq<ShareRef>, parts: seq<Str>)
    requires parts != []
    ensures Unshadowed(shares, refs, parts) <==>
              && FolderFirst(shares, refs, parts[0])
              && Unshadowed(shares, FoldersNamed(AllChildren(shares, refs), parts[0]), parts[1..])
  {
    var next := FoldersNamed(AllChildren(shares, refs), parts[0]);
    WalkNowhere(shares, refs);
    assert parts[..0] == [];
    forall k | 0 < k < |parts|
      ensures WalkAll(shares, refs, parts[..k]) == WalkAll(shares, next, parts[1..][..k - 1])
      ensures parts[1..][k - 1] == parts[k]
    {
      WalkStep(shares, refs, parts[..k]);
      assert parts[..k][1..] == parts[1..][..k - 1];
    }
    if Unshadowed(shares, refs, parts) {
      forall k | 0 <= k < |parts[1..]|
        ensures FolderFirst(shares, WalkAll(shares, next, parts[1..][..k]), parts[1..][k])
      {
        assert FolderFirst(shares, WalkAll(shares, refs, parts[..k + 1]), parts[k + 1]);
      }
    }
  }

  /** Below readable nodes there are only readable nodes. */
  lemma NextReadable(shares: Shares, refs: seq<ShareRef>, name: Str)
    requires AllReadable(refs)
    ensures AllReadable(FoldersNamed(AllChildren(shares, refs), name))
    ensures FolderFirst(shares, refs, name) ==> Readable(FirstNamed(AllChildren(shares, refs), name).value.ref)
  {
    ReadablesAll(refs);
    FoldersOfReadables(shares, refs, name);
    hide Readable, FoldersNamed, FirstNamed;
    if FolderFirst(shares, refs, name) {
      FirstFolder(AllChildren(shares, refs), name);
    }
  }

  /** The merged lookup finds a folder iff no step is shadowed; the folder then stands for
      exactly the nodes the shares reach on their own, in share order. */
  lemma {:induction false} FolderExactly(shares: Shares, refs: seq<ShareRef>, parts: seq<Str>)
    requires parts != [] && AllReadable(refs)
    ensures Resolve(shares, refs, parts).Folder? <==> Unshadowed(shares, refs, parts)
    ensures Resolve(shares, refs, parts).Folder? ==>
              Resolve(shares, refs, parts) == Folder(WalkAll(shares, refs, parts))
    decreases |parts|
  {
    UnshadowedStep(shares, refs, parts);
    var cs := AllChildren(shares, refs);
    NextReadable(shares, refs, parts[0]);
    if FolderFirst(shares, refs, parts[0]) {
      var next := FoldersNamed(cs, parts[0]);
      ReadablesAll(next);
      WalkStep(shares, refs, parts);
      assert cs != [];
      if |parts| == 1 {
        WalkNowhere(shares, next);
        assert parts[1..] == [];
      } else {
        FolderExactly(shares, next, parts[1..]);
      }
    }
  }

  /** What the directory that a path leads to shows under the next name. */
  ghost function ShownAt(shares: Shares, refs: seq<ShareRef>, parts: seq<Str>, k: nat): Option<Child>
    requires k < |parts|
  {
    FirstNamed(AllChildren(shares, WalkAll(shares, refs, parts[..k])), parts[k])
  }

  /** One step of the lookup among readable nodes. */
  lemma ResolveStep(shares: Shares, refs: seq<ShareRef>, parts: seq<Str>)
    requires parts != [] && AllReadable(refs)
    ensures var cs := AllChildren(shares, refs);
            var first := FirstNamed(cs, parts[0]);
            var next := FoldersNamed(cs, parts[0]);
            && AllReadable(next) && (FolderFirst(shares, refs, parts[0]) <==> first.Some? && first.value.isDir)
            && (first.Some? ==> cs != [] && first.value.name == parts[0])
            && Resolve(shares, refs, parts)
               == if first.None? then
                    if cs == [] && FirstFailure(shares, refs).Some? then Unlistable(FirstFailure(shares, refs).value)
                    else Missing
                  else if !first.value.isDir then if |parts| == 1 then File(first.value.ref) else Missing
                  else if |parts| == 1 then Folder(next) else Resolve(shares, next, parts[1..])
  {
    hide FoldersNamed, FirstNamed, AllChildren, Readable, Names, FirstFailure;
    var cs := AllChildren(shares, refs);
    NamesExact(cs);
    NextReadable(shares, refs, parts[0]);
    ReadablesAll(FoldersNamed(cs, parts[0]));
    if FirstNamed(cs, parts[0]).Some? {
      NoMembers(cs, parts[0]);
    }
  }

  /** The merged lookup finds a file iff no step before the last is shadowed and the first member of the
      last name, among the nodes reached, is that file. */
  lemma {:induction false} FileExactly(shares: Shares, refs: seq<ShareRef>, parts: seq<Str>, r: ShareRef)
    requires parts != [] && AllReadable(refs)
    ensures Resolve(shares, refs, parts) == File(r)
       <==> && Unshadowed(shares, refs, parts[..|parts| - 1])
            && ShownAt(shares, refs, parts, |parts| - 1) == Some(Child(parts[|parts| - 1], false, r))
    decreases |parts|
  {
    hide Resolve, FoldersNamed, FirstNamed, AllChildren, AllReadable, Unshadowed, WalkAll, FolderFirst;
    ResolveStep(shares, refs, parts);
    WalkNowhere(shares, refs);
    if |parts| == 1 {
      assert parts[..0] == [];
      NothingShadowed(shares, refs);
    } else {
      var most := parts[..|parts| - 1];
      UnshadowedStep(shares, refs, most);
      assert most[1..] == parts[1..][..|parts| - 2];
      if FolderFirst(shares, refs, parts[0]) {
        WalkStep(shares, refs, most);
        FileExactly(shares, FoldersNamed(AllChildren(shares, refs), parts[0]), parts[1..], r);
      }
    }
  }

  lemma NothingShadowed(shares: Shares, refs: seq<ShareRef>)
    ensures Unshadowed(shares, refs, [])
  {
  }

  /** No step before step `k` is shadowed, and nothing is shown there because the nodes reached could not be
      listed, first of all `r`. */
  ghost predicate StuckAt(shares: Shares, refs: seq<ShareRef>, parts: seq<Str>, k: nat, r: ShareRef)
    requires k < |parts|
  {
    var here := WalkAll(shares, refs, parts[..k]);
    Unshadowed(shares, refs, parts[..k]) && AllChildren(shares, here) == [] && FirstFailure(shares, here) == Some(r)
  }

  lemma StuckStep(shares: Shares, refs: seq<ShareRef>, parts: seq<Str>, k: nat, r: ShareRef)
    requires k < |parts|
    ensures StuckAt(shares, refs, parts, k, r)
       <==> if k == 0 then AllChildren(shares, refs) == [] && FirstFailure(shares, refs) == Some(r)
            else && FolderFirst(shares, refs, parts[0])
                 && StuckAt(shares, FoldersNamed(AllChildren(shares, refs), parts[0]), parts[1..], k - 1, r)
  {
    hide FoldersNamed, AllChildren, FolderFirst, Unshadowed, WalkAll, FirstFailure;
    if k == 0 {
      assert parts[..0] == [];
      WalkNowhere(shares, refs);
      NothingShadowed(shares, refs);
    } else {
      UnshadowedStep(shares, refs, parts[..k]);
      WalkStep(shares, refs, parts[..k]);
      assert parts[..k][1..] == parts[1..][..k - 1];
    }
  }

  /** The merged lookup reports the failure of a node iff it gets stuck there.  When it finds no folder and
      no file and does not get stuck either, there is no such path. */
  lemma {:induction false} UnlistableExactly(shares: Shares, refs: seq<ShareRef>, parts: seq<Str>, r: ShareRef)
    requires parts != [] && AllReadable(refs)
    ensures Resolve(shares, refs, parts) == Unlistable(r)
       <==> exists k: nat :: k < |parts| && StuckAt(shares, refs, parts, k, r)
    decreases |parts|
  {
    hide Resolve, FoldersNamed, FirstNamed, AllChildren, AllReadable, StuckAt, FolderFirst, FirstFailure;
    ResolveStep(shares, refs, parts);
    StuckStep(shares, refs, parts, 0, r);
    forall k: nat | k < |parts| ensures StuckAt(shares, refs, parts, k, r)
      <==> if k == 0 then AllChildren(shares, refs) == [] && FirstFailure(shares, refs) == Some(r)
           else && FolderFirst(shares, refs, parts[0])
                && StuckAt(shares, FoldersNamed(AllChildren(shares, refs), parts[0]), parts[1..], k - 1, r) {
      StuckStep(shares, refs, parts, k, r);
    }
    var next := FoldersNamed(AllChildren(shares, refs), parts[0]);
    if FolderFirst(shares, refs, parts[0]) && |parts| > 1 {
      UnlistableExactly(shares, next, parts[1..], r);
      if k: nat :| k < |parts[1..]| && StuckAt(shares, next, parts[1..], k, r) {
        assert StuckAt(shares, refs, parts, k + 1, r);
      }
    }
  }

  // ---------- No file in the way: the overlay is the union of the shares ----------

  /** No node reached on the way has a file under the next name. */
  ghost predicate NoFileOnPath(shares: Shares, refs: seq<ShareRef>, parts: seq<Str>) {
    forall k, r | 0 <= k < |parts| && r in WalkAll(shares, refs, parts[..k]) :: NoFileNamed(shares, r, parts[k])
  }

  ghost predicate NoFileNamed(shares: Shares, ref: ShareRef, name: Str) {
    forall c <- ChildrenOf(shares, ref) :: c.name == name ==> c.isDir
  }

  lemma {:induction false} MembersOf(shares: Shares, refs: seq<ShareRef>, c: Child)
    ensures c in AllChildren(shares, refs) <==> exists r <- refs :: c in ChildrenOf(shares, r)
  {
    if refs != [] {
      var n := |refs| - 1;
      assert refs == refs[..n] + [refs[n]];
      MembersOf(shares, refs[..n], c);
    }
  }

  /** Where no node has a file of that name, the first member is a folder iff there is one. */
  lemma FolderFirstIff(shares: Shares, refs: seq<ShareRef>, name: Str)
    requires forall r <- refs :: NoFileNamed(shares, r, name)
    ensures FolderFirst(shares, refs, name) <==> FoldersNamed(AllChildren(shares, refs), name) != []
  {
    var cs := AllChildren(shares, refs);
    NamesExact(cs);
    FoldersAny(cs, name);
    if FirstNamed(cs, name).Some? {
      MembersOf(shares, refs, FirstNamed(cs, name).value);
    }
    if exists c <- cs :: c.isDir && c.name == name {
      var c :| c in cs && c.isDir && c.name == name;
      FirstExists(cs, c);
    }
  }

  lemma {:induction false} FirstExists(cs: seq<Child>, c: Child)
    requires c in cs
    ensures FirstNamed(cs, c.name).Some?
  {
    var n := |cs| - 1;
    assert cs == cs[..n] + [cs[n]];
    if c in cs[..n] {
      FirstExists(cs[..n], c);
    }
  }

  lemma {:induction false} FoldersAny(cs: seq<Child>, name: Str)
    ensures FoldersNamed(cs, name) != [] <==> exists c <- cs :: c.isDir && c.name == name
  {
    if cs != [] {
      var n := |cs| - 1;
      assert cs == cs[..n] + [cs[n]];
      FoldersAny(cs[..n], name);
    }
  }

  lemma NoFileStep(shares: Shares, refs: seq<ShareRef>, parts: seq<Str>)
    requires parts != [] && NoFileOnPath(shares, refs, parts)
    ensures forall r <- refs :: NoFileNamed(shares, r, parts[0])
    ensures NoFileOnPath(shares, FoldersNamed(AllChildren(shares, refs), parts[0]), parts[1..])
  {
    var next := FoldersNamed(AllChildren(shares, refs), parts[0]);
    WalkNowhere(shares, refs);
    assert parts[..0] == [];
    forall k, r | 0 <= k < |parts[1..]| && r in WalkAll(shares, next, parts[1..][..k])
      ensures NoFileNamed(shares, r, parts[1..][k])
    {
      WalkStep(shares, refs, parts[..k + 1]);
      assert parts[..k + 1][1..] == parts[1..][..k];
      assert r in WalkAll(shares, refs, parts[..k + 1]);
    }
  }

  /** With no file in the way, the merged lookup finds a folder iff walking reaches a node. */
  lemma {:induction false} FolderIffReached(shares: Shares, refs: seq<ShareRef>, parts: seq<Str>)
    requires parts != [] && NoFileOnPath(shares, refs, parts) && AllReadable(refs)
    ensures Resolve(shares, refs, parts).Folder? <==> WalkAll(shares, refs, parts) != []
    decreases |parts|
  {
    NoFileStep(shares, refs, parts);
    FolderFirstIff(shares, refs, parts[0]);
    WalkStep(shares, refs, parts);
    var next := FoldersNamed(AllChildren(shares, refs), parts[0]);
    NextReadable(shares, refs, parts[0]);
    ReadablesAll(next);
    if |parts| == 1 {
      assert parts[1..] == [];
      WalkNowhere(shares, next);
    } else if next != [] {
      FolderIffReached(shares, next, parts[1..]);
    }
  }

  /** The nodes of the folder found, if one is. */
  function FolderRefs(found: Found): seq<ShareRef> {
    match found
    case Folder(refs) => refs
    case _ => []
  }

  /** What every share gives when it is the only one configured, one after the other. */
  function EachAlone(shares: Shares, refs: seq<ShareRef>, parts: seq<Str>): seq<ShareRef>
    requires parts != []
  {
    if refs == [] then []
    else EachAlone(shares, refs[..|refs| - 1], parts)
         + FolderRefs(Resolve(shares, [refs[|refs| - 1]], parts))
  }

  lemma NoFileForEach(shares: Shares, refs: seq<ShareRef>, more: seq<ShareRef>, parts: seq<Str>)
    requires NoFileOnPath(shares, refs + more, parts)
    ensures NoFileOnPath(shares, refs, parts) && NoFileOnPath(shares, more, parts)
  {
    forall k | 0 <= k < |parts|
      ensures WalkAll(shares, refs + more, parts[..k])
           == WalkAll(shares, refs, parts[..k]) + WalkAll(shares, more, parts[..k])
    {
      WalkAllConcat(shares, refs, more, parts[..k]);
    }
  }

  /** The union mount: unless a file stands in the way in some share, looking a path up in the
      merged tree finds the folders that each share finds alone, concatenated in share order;
      it finds one iff some share does. */
  lemma {:induction false} OverlayIsUnion(shares: Shares, refs: seq<ShareRef>, parts: seq<Str>)
    requires parts != [] && NoFileOnPath(shares, refs, parts) && AllReadable(refs)
    ensures FolderRefs(Resolve(shares, refs, parts)) == EachAlone(shares, refs, parts)
    ensures Resolve(shares, refs, parts).Folder? <==> EachAlone(shares, refs, parts) != []
    decreases |refs|
  {
    hide Resolve, WalkAll, Walk, NoFileOnPath, Unshadowed;
    FolderExactly(shares, refs, parts);
    FolderIffReached(shares, refs, parts);
    if refs == [] {
      WalkFromNothing(shares, parts);
    } else {
      var n := |refs| - 1;
      var before, last := refs[..n], [refs[n]];
      assert refs == before + last;
      NoFileForEach(shares, before, last, parts);
      OverlayIsUnion(shares, before, parts);
      FolderExactly(shares, before, parts);
      FolderIffReached(shares, before, parts);
      FolderExactly(shares, last, parts);
      FolderIffReached(shares, last, parts);
      WalkAllConcat(shares, before, last, parts);
    }
  }

  // ---------- Shares whose references cannot be read back ----------

  lemma FirstConcat(a: seq<Child>, b: seq<Child>, name: Str)
    ensures FirstNamed(a + b, name) == if FirstNamed(a, name).Some? then FirstNamed(a, name) else FirstNamed(b, name)
    decreases |b|
  {
    if b == [] {
      assert a + b == a;
    } else {
      var n := |b| - 1;
      assert (a + b)[..|a| + n] == a + b[..n];
      FirstConcat(a, b[..n], name);
    }
  }

  lemma AllChildrenSnoc(shares: Shares, refs: seq<ShareRef>, r: ShareRef)
    ensures AllChildren(shares, refs + [r]) == AllChildren(shares, refs) + ChildrenOf(shares, r)
  {
    assert (refs + [r])[..|refs|] == refs;
  }

  lemma {:induction false} ReadablesAmong(refs: seq<ShareRef>)
    ensures forall r :: r in Readables(refs) <==> r in refs && Readable(r)
  {
    hide Readable;
    if refs != [] {
      var n := |refs| - 1;
      assert refs == refs[..n] + [refs[n]];
      ReadablesAmong(refs[..n]);
    }
  }

  /** A name that no share has is not found among the readable shares either. */
  lemma NoneAmongReadables(shares: Shares, refs: seq<ShareRef>, name: Str)
    requires FirstNamed(AllChildren(shares, refs), name).None?
    ensures FirstNamed(AllChildren(shares, Readables(refs)), name).None?
  {
    hide FirstNamed, AllChildren, Readables, ChildrenOf, Names;
    var cs := AllChildren(shares, Readables(refs));
    NamesExact(cs);
    if FirstNamed(cs, name).Some? {
      var c := FirstNamed(cs, name).value;
      MembersOf(shares, Readables(refs), c);
      ReadablesAmong(refs);
      MembersOf(shares, refs, c);
      FirstExists(AllChildren(shares, refs), c);
    }
  }

  /** A first member that can be read back is first among the readable shares too. */
  lemma {:induction false} FirstAmongReadables(shares: Shares, refs: seq<ShareRef>, name: Str)
    requires FirstNamed(AllChildren(shares, refs), name).Some?
    requires Readable(FirstNamed(AllChildren(shares, refs), name).value.ref)
    ensures FirstNamed(AllChildren(shares, Readables(refs)), name) == FirstNamed(AllChildren(shares, refs), name)
  {
    hide Readable, ChildrenOf, Names, FirstNamed, Readables, AllChildren;
    if refs == [] {
      assert Readables(refs) == refs by { ReadablesAll(refs); }
    } else {
      var n := |refs| - 1;
      var before, last := refs[..n], refs[n];
      assert refs == before + [last];
      AllChildrenSnoc(shares, before, last);
      ReadablesSnoc(before, last);
      AllChildrenSnoc(shares, Readables(before), last);
      FirstConcat(AllChildren(shares, before), ChildrenOf(shares, last), name);
      FirstConcat(AllChildren(shares, Readables(before)), ChildrenOf(shares, last), name);
      assert Readables(before) + [] == Readables(before);
      if FirstNamed(AllChildren(shares, before), name).Some? {
        FirstAmongReadables(shares, before, name);
      } else {
        NoneAmongReadables(shares, before, name);
        SameLink(shares, last);
        NamesExact(ChildrenOf(shares, last));
      }
    }
  }

  /** The first member of a name, if there is one, can be read back. */
  ghost predicate FirstReads(shares: Shares, refs: seq<ShareRef>, name: Str) {
    match FirstNamed(AllChildren(shares, refs), name)
    case None => true
    case Some(c) => Readable(c.ref)
  }

  /** When the first folder of a name can be read back, the others count iff they can too. */
  lemma ReadablesCount(shares: Shares, refs: seq<ShareRef>, parts: seq<Str>)
    requires parts != [] && FolderFirst(shares, refs, parts[0]) && FirstReads(shares, refs, parts[0])
    ensures FolderRefs(Resolve(shares, refs, parts)) == FolderRefs(Resolve(shares, Readables(refs), parts))
    ensures Resolve(shares, refs, parts).Folder? <==> Resolve(shares, Readables(refs), parts).Folder?
  {
    hide Readable, FirstNamed, AllChildren, FoldersNamed, Readables;
    var name := parts[0];
    FirstAmongReadables(shares, refs, name);
    FoldersOfReadables(shares, refs, name);
    FirstFolder(AllChildren(shares, refs), name);
    var next := FoldersNamed(AllChildren(shares, refs), name);
    ReadablesAll(Readables(next));
    NoMembers(AllChildren(shares, refs), name);
    NoMembers(AllChildren(shares, Readables(refs)), name);
  }

  lemma NoMembers(cs: seq<Child>, name: Str)
    requires FirstNamed(cs, name).Some?
    ensures cs != []
  {
  }

  lemma {:induction false} WalkReadables(shares: Shares, refs: seq<ShareRef>, parts: seq<Str>)
    ensures forall r <- WalkAll(shares, Readables(refs), parts) :: r in WalkAll(shares, refs, parts)
    decreases |refs|
  {
    hide WalkAll, Walk, Readables, Readable;
    if refs == [] {
      ReadablesAll(refs);
    } else {
      var n := |refs| - 1;
      assert refs == refs[..n] + [refs[n]];
      WalkReadables(shares, refs[..n], parts);
      ReadablesSnoc(refs[..n], refs[n]);
      WalkAllSnoc(shares, refs[..n], refs[n], parts);
      WalkAllSnoc(shares, Readables(refs[..n]), refs[n], parts);
      assert Readables(refs[..n]) + [] == Readables(refs[..n]);
    }
  }

  /** A share that cannot be read back finds no folder when it is the only one. */
  lemma UnreadableAlone(shares: Shares, ref: ShareRef, parts: seq<Str>)
    requires parts != [] && !Readable(ref)
    ensures FolderRefs(Resolve(shares, [ref], parts)) == []
  {
    hide Readable, ChildrenOf, FirstNamed, Names;
    assert [ref][..0] == [];
    assert AllChildren(shares, [ref]) == [] + ChildrenOf(shares, ref) == ChildrenOf(shares, ref);
    SameLink(shares, ref);
    NamesExact(ChildrenOf(shares, ref));
  }

  lemma {:induction false} EachReadableAlone(shares: Shares, refs: seq<ShareRef>, parts: seq<Str>)
    requires parts != []
    ensures EachAlone(shares, Readables(refs), parts) == EachAlone(shares, refs, parts)
    decreases |refs|
  {
    hide Readable, Resolve;
    if refs != [] {
      var n := |refs| - 1;
      assert refs == refs[..n] + [refs[n]];
      EachReadableAlone(shares, refs[..n], parts);
      ReadablesSnoc(refs[..n], refs[n]);
      if Readable(refs[n]) {
        assert (Readables(refs[..n]) + [refs[n]])[..|Readables(refs[..n])|] == Readables(refs[..n]);
      } else {
        UnreadableAlone(shares, refs[n], parts);
        assert Readables(refs[..n]) + [] == Readables(refs[..n]);
      }
    }
  }

  /** With any shares: unless a file stands in the way, the merged lookup is the union of what
      each share finds alone iff no share finds anything or the first member of the first name
      can be read back.  Otherwise that member hides the folders of the other shares. */
  lemma OverlayIsUnionIff(shares: Shares, refs: seq<ShareRef>, parts: seq<Str>)
    requires parts != [] && NoFileOnPath(shares, refs, parts)
    ensures FolderRefs(Resolve(shares, refs, parts)) == EachAlone(shares, refs, parts)
       <==> EachAlone(shares, refs, parts) == [] || FirstReads(shares, refs, parts[0])
  {
    hide WalkAll, Walk, Readables, FirstNamed, EachAlone, AllChildren, ChildrenOf, Readable, FoldersNamed;
    var name := parts[0];
    forall k, r | 0 <= k < |parts| && r in WalkAll(shares, Readables(refs), parts[..k])
      ensures NoFileNamed(shares, r, parts[k])
    {
      WalkReadables(shares, refs, parts[..k]);
    }
    EachReadableAlone(shares, refs, parts);
    OverlayIsUnion(shares, Readables(refs), parts);
    NoFileStep(shares, refs, parts);
    FirstIsFolder(shares, refs, name);
    if FirstNamed(AllChildren(shares, refs), name).None? {
      NoneAmongReadables(shares, refs, name);
    } else if FirstReads(shares, refs, name) {
      ReadablesCount(shares, refs, parts);
    }
  }

  lemma FirstIsFolder(shares: Shares, refs: seq<ShareRef>, name: Str)
    requires forall r <- refs :: NoFileNamed(shares, r, name)
    ensures FirstNamed(AllChildren(shares, refs), name).Some? ==> FolderFirst(shares, refs, name)
  {
    var cs := AllChildren(shares, refs);
    NamesExact(cs);
    if FirstNamed(cs, name).Some? {
      MembersOf(shares, refs, FirstNamed(cs, name).value);
    }
  }
}
