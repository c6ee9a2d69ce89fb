/** 139 share mode: several shares shown as one directory tree. */
module ShareOverlay {
  import opened Results
  import opened ShareCodec

  // ---------- What the shares contain ----------

  datatype Entry = Entry(node: Str, name: Str)

  /** The server's answer for one node of a share: its folders and its files. */
  datatype Listing = Listing(folders: seq<Entry>, files: seq<Entry>)

  /** A snapshot of the shares.  A node outside the map is one whose listing fails. */
  type Shares = map<ShareRef, Listing>

  /** The bytes of "root". */
  const ROOT: Str := [114, 111, 111, 116]

  /** The node actually listed: an empty node id means the root of the share. */
  function Effective(ref: ShareRef): ShareRef {
    if ref.node == [] then ref.(node := ROOT) else ref
  }

  /** A member of a folder, as a reference. */
  datatype Child = Child(name: Str, isDir: bool, ref: ShareRef)

  function AsChildren(ref: ShareRef, entries: seq<Entry>, isDir: bool): (r: seq<Child>)
    ensures |r| == |entries|
  {
    seq(|entries|, i requires 0 <= i < |entries| =>
      Child(entries[i].name, isDir, ref.(node := entries[i].node)))
  }

  /** The members of a node of a share: folders first, then files; none when listing fails. */
  function ChildrenOf(shares: Shares, ref: ShareRef): seq<Child> {
    if Effective(ref) !in shares then []
    else
      var listing := shares[Effective(ref)];
      AsChildren(ref, listing.folders, true) + AsChildren(ref, listing.files, false)
  }

  /** The members are the entries the server lists, folders before files, each in its order: with its name,
      and a reference to its node in the same share.  No node means the node "root". */
  lemma Members(shares: Shares, ref: ShareRef)
    ensures var at := ShareRef(ref.link, ref.password, if ref.node == [] then ROOT else ref.node);
            var cs := ChildrenOf(shares, ref);
            if at !in shares then cs == []
            else
              var folders, files := shares[at].folders, shares[at].files;
              && |cs| == |folders| + |files|
              && (forall i | 0 <= i < |folders| ::
                    cs[i] == Child(folders[i].name, true, ShareRef(ref.link, ref.password, folders[i].node)))
              && (forall i | 0 <= i < |files| ::
                    cs[|folders| + i] == Child(files[i].name, false, ShareRef(ref.link, ref.password, files[i].node)))
  {
    var at := ShareRef(ref.link, ref.password, if ref.node == [] then ROOT else ref.node);
    assert Effective(ref) == at;
    if at in shares {
      var folders := AsChildren(ref, shares[at].folders, true);
      var files := AsChildren(ref, shares[at].files, false);
      assert ChildrenOf(shares, ref) == folders + files;
      forall i | 0 <= i < |files| ensures ChildrenOf(shares, ref)[|folders| + i] == files[i] {
      }
    }
  }

  /** The members of several nodes, node after node. */
  function AllChildren(shares: Shares, refs: seq<ShareRef>): seq<Child> {
    if refs == [] then []
    else AllChildren(shares, refs[..|refs| - 1]) + ChildrenOf(shares, refs[|refs| - 1])
  }

  // ---------- The merged view ----------

  /** An entry of the merged directory: a file, or a folder that stands for several nodes. */
  datatype Merged = Merged(name: Str, isDir: bool, refs: seq<ShareRef>)

  /** The names in the order of their first appearance. */
  function Names(cs: seq<Child>): (names: seq<Str>)
    ensures |names| <= |cs|
  {
    if cs == [] then []
    else
      var names := Names(cs[..|cs| - 1]);
      if cs[|cs| - 1].name in names then names else names + [cs[|cs| - 1].name]
  }

  /** The first member with a name. */
  function FirstNamed(cs: seq<Child>, name: Str): Option<Child> {
    if cs == [] then None
    else
      match FirstNamed(cs[..|cs| - 1], name)
      case Some(c) => Some(c)
      case None => if cs[|cs| - 1].name == name then Some(cs[|cs| - 1]) else None
  }

  /** All folders with a name, in order. */
  function FoldersNamed(cs: seq<Child>, name: Str): seq<ShareRef> {
    if cs == [] then []
    else
      var last := cs[|cs| - 1];
      FoldersNamed(cs[..|cs| - 1], name) + if last.isDir && last.name == name then [last.ref] else []
  }

  /** The references among these whose ids can be read back. */
  function Readables(refs: seq<ShareRef>): (r: seq<ShareRef>)
    ensures forall x <- r :: Readable(x)
    ensures |r| <= |refs|
  {
    if refs == [] then []
    else Readables(refs[..|refs| - 1]) + if Readable(refs[|refs| - 1]) then [refs[|refs| - 1]] else []
  }

  /** What a folder stands for when folders with these references are merged: all that can be
      read back, unless the first one cannot, which then stays alone. */
  function Gathered(refs: seq<ShareRef>): seq<ShareRef> {
    if refs != [] && !Readable(refs[0]) then [refs[0]] else Readables(refs)
  }

  /** What the merged directory shows under a name: the first member decides between file and
      folder; a folder stands for what can be gathered from all folders of that name. */
  function View(cs: seq<Child>, name: Str): Merged
    requires FirstNamed(cs, name).Some?
  {
    var first := FirstNamed(cs, name).value;
    if first.isDir then Merged(name, true, Gathered(FoldersNamed(cs, name))) else Merged(name, false, [first.ref])
  }

  lemma {:induction false} NamesExact(cs: seq<Child>)
    ensures forall i, j | 0 <= i < j < |Names(cs)| :: Names(cs)[i] != Names(cs)[j]
    ensures forall n :: n in Names(cs) <==> FirstNamed(cs, n).Some?
    ensures forall n | FirstNamed(cs, n).Some? :: FirstNamed(cs, n).value in cs && FirstNamed(cs, n).value.name == n
  {
    if cs != [] {
      NamesExact(cs[..|cs| - 1]);
      assert cs == cs[..|cs| - 1] + [cs[|cs| - 1]];
    }
  }

  // ---------- Listing the merged directory ----------

  /** An object as the driver hands it out: its id carries the references. */
  datatype Item = Item(id: Str, name: Str, isDir: bool)

  function ItemOf(wire: Wire, m: Merged): Item {
    Item(EncodeRefs(wire, m.refs), m.name, m.isDir)
  }

  function ItemOfChild(c: Child): Item {
    Item(EncodeRef(c.ref), c.name, c.isDir)
  }

  /** The objects for what the server lists: folders before files, each with its name, and an id that
      refers to its own node in the same share. */
  ghost predicate ListsAll(listing: Listing, ref: ShareRef, items: seq<Item>) {
    var folders, files := listing.folders, listing.files;
    && |items| == |folders| + |files|
    && (forall i | 0 <= i < |folders| ::
          items[i] == Item(EncodeRef(ShareRef(ref.link, ref.password, folders[i].node)), folders[i].name, true))
    && (forall i | 0 <= i < |files| ::
          items[|folders| + i]
          == Item(EncodeRef(ShareRef(ref.link, ref.password, files[i].node)), files[i].name, false))
  }

  /** Lists one node of a share; no node means the node "root". */
  method GetFilesWithRef(shares: Shares, ref: ShareRef) returns (r: Option<seq<Item>>)
    ensures r.Some? <==> Effective(ref) in shares
    ensures r.Some? ==> ListsAll(shares[Effective(ref)], ref, r.value)
  {
    hide EncodeRef;
    var target := if ref.node == [] then ref.(node := ROOT) else ref;
    if target !in shares {
      return None;
    }
    var listing := shares[target];
    var items := [];
    for i := 0 to |listing.folders|
      invariant ListsAll(Listing(listing.folders[..i], []), ref, items)
    {
      var entry := listing.folders[i];
      items := items + [Item(EncodeRef(ref.(node := entry.node)), entry.name, true)];
    }
    for i := 0 to |listing.files|
      invariant ListsAll(Listing(listing.folders, listing.files[..i]), ref, items)
    {
      var entry := listing.files[i];
      items := items + [Item(EncodeRef(ref.(node := entry.node)), entry.name, false)];
    }
    assert listing.files[..|listing.files|] == listing.files;
    r := Some(items);
  }

  lemma ItemsAreMembers(shares: Shares, ref: ShareRef, items: seq<Item>)
    requires Effective(ref) in shares && ListsAll(shares[Effective(ref)], ref, items)
    ensures var cs := ChildrenOf(shares, ref);
            |items| == |cs| && forall i | 0 <= i < |cs| :: items[i] == ItemOfChild(cs[i])
  {
    hide EncodeRef;
    var folders := AsChildren(ref, shares[Effective(ref)].folders, true);
    var files := AsChildren(ref, shares[Effective(ref)].files, false);
    assert ChildrenOf(shares, ref) == folders + files;
    forall i | 0 <= i < |items| ensures items[i] == ItemOfChild((folders + files)[i]) {
      assert i >= |folders| ==> items[|folders| + (i - |folders|)] == ItemOfChild(files[i - |folders|]);
    }
  }

  /** `indices` finds every name in the list of names. */
  ghost predicate Positions(names: seq<Str>, indices: map<Str, nat>) {
    && (forall n :: n in names <==> n in indices)
    && (forall n <- indices :: indices[n] < |names| && names[indices[n]] == n)
    && (forall k | 0 <= k < |names| :: indices[names[k]] == k)
  }

  /** `files` shows the members `cs`, one object per name. */
  ghost predicate Shows(wire: Wire, cs: seq<Child>, files: seq<Item>) {
    && |files| == |Names(cs)|
    && forall k | 0 <= k < |files| ::
         FirstNamed(cs, Names(cs)[k]).Some? && files[k] == ItemOf(wire, View(cs, Names(cs)[k]))
  }

  lemma NamesSnoc(cs: seq<Child>, c: Child)
    ensures Names(cs + [c]) == if c.name in Names(cs) then Names(cs) else Names(cs) + [c.name]
  {
    assert (cs + [c])[..|cs|] == cs;
  }

  lemma FoldersSnoc(cs: seq<Child>, c: Child, name: Str)
    ensures FoldersNamed(cs + [c], name)
         == FoldersNamed(cs, name) + if c.isDir && c.name == name then [c.ref] else []
  {
    assert (cs + [c])[..|cs|] == cs;
  }

  lemma ReadablesSnoc(refs: seq<ShareRef>, r: ShareRef)
    ensures Readables(refs + [r]) == Readables(refs) + if Readable(r) then [r] else []
  {
    assert (refs + [r])[..|refs|] == refs;
  }

  /** One more folder adds its reference iff both it and the first one can be read back. */
  lemma GatheredSnoc(refs: seq<ShareRef>, r: ShareRef)
    requires refs != []
    ensures Gathered(refs + [r])
         == if Readable(refs[0]) && Readable(r) then Gathered(refs) + [r] else Gathered(refs)
  {
    ReadablesSnoc(refs, r);
    assert (refs + [r])[0] == refs[0];
  }

  /** The folders of a name begin with its first member, if that is a folder. */
  lemma {:induction false} FirstFolder(cs: seq<Child>, name: Str)
    requires FirstNamed(cs, name).Some? && FirstNamed(cs, name).value.isDir
    ensures FoldersNamed(cs, name) != [] && FoldersNamed(cs, name)[0] == FirstNamed(cs, name).value.ref
  {
    var n := |cs| - 1;
    if FirstNamed(cs[..n], name).Some? {
      FirstFolder(cs[..n], name);
    } else {
      NoFolders(cs[..n], name);
    }
  }

  lemma FirstSnoc(cs: seq<Child>, c: Child, name: Str)
    requires FirstNamed(cs, name).Some?
    ensures FirstNamed(cs + [c], name) == FirstNamed(cs, name)
  {
    assert (cs + [c])[..|cs|] == cs;
  }

  /** What one more member changes under a name already shown: a folder gains a reference when
      both are folders that can be read back, and nothing else changes. */
  lemma ViewSnoc(cs: seq<Child>, c: Child, name: Str)
    requires FirstNamed(cs, name).Some?
    ensures FirstNamed(cs + [c], name) == FirstNamed(cs, name)
    ensures View(cs + [c], name)
         == (if View(cs, name).isDir && c.isDir && c.name == name
                && Readable(FirstNamed(cs, name).value.ref) && Readable(c.ref)
             then View(cs, name).(refs := View(cs, name).refs + [c.ref]) else View(cs, name))
  {
    hide FoldersNamed, FirstNamed, Readables, Gathered, Readable;
    FirstSnoc(cs, c, name);
    FoldersSnoc(cs, c, name);
    assert FoldersNamed(cs, name) + [] == FoldersNamed(cs, name);
    if FirstNamed(cs, name).value.isDir {
      FirstFolder(cs, name);
      GatheredSnoc(FoldersNamed(cs, name), c.ref);
    }
  }

  /** What one more member shows under a name that is new. */
  lemma ViewNew(cs: seq<Child>, c: Child)
    requires FirstNamed(cs, c.name).None?
    ensures FirstNamed(cs + [c], c.name) == Some(c)
    ensures View(cs + [c], c.name) == Merged(c.name, c.isDir, [c.ref])
  {
    assert (cs + [c])[..|cs|] == cs;
    NoFolders(cs, c.name);
    GatheredOne(c.ref);
  }

  lemma GatheredOne(r: ShareRef)
    ensures Gathered([r]) == [r]
  {
    assert Readables([]) == [];
    assert [r][..0] == [];
  }

  lemma {:induction false} NoFolders(cs: seq<Child>, name: Str)
    requires FirstNamed(cs, name).None?
    ensures FoldersNamed(cs, name) == []
  {
    if cs != [] {
      NoFolders(cs[..|cs| - 1], name);
    }
  }

  lemma MergeNew(wire: Wire, cs: seq<Child>, files: seq<Item>, c: Child)
    requires Shows(wire, cs, files) && c.name !in Names(cs)
    ensures Shows(wire, cs + [c], files + [ItemOfChild(c)])
  {
    hide Names, FirstNamed, View;
    NamesSnoc(cs, c);
    NamesExact(cs);
    ViewNew(cs, c);
    forall k | 0 <= k < |files|
      ensures FirstNamed(cs + [c], Names(cs)[k]).Some?
      ensures View(cs + [c], Names(cs)[k]) == View(cs, Names(cs)[k])
    {
      assert Names(cs)[k] in Names(cs);
      ViewSnoc(cs, c, Names(cs)[k]);
    }
  }

  lemma MergeIgnored(wire: Wire, cs: seq<Child>, files: seq<Item>, idx: nat, c: Child)
    requires Shows(wire, cs, files) && idx < |files| && Names(cs)[idx] == c.name
    requires !files[idx].isDir || !c.isDir
    ensures Shows(wire, cs + [c], files)
  {
    hide Names, FirstNamed, View, EncodeRefs;
    NamesSnoc(cs, c);
    forall k | 0 <= k < |files|
      ensures FirstNamed(cs + [c], Names(cs)[k]).Some?
      ensures View(cs + [c], Names(cs)[k]) == View(cs, Names(cs)[k])
    {
      ViewSnoc(cs, c, Names(cs)[k]);
      if Names(cs)[k] == c.name {
        assert files[idx].isDir == View(cs, c.name).isDir;
      }
    }
  }

  ghost predicate MembersText(cs: seq<Child>) {
    forall c <- cs :: IsText(c.ref)
  }

  lemma {:induction false} FoldersText(cs: seq<Child>, name: Str)
    requires MembersText(cs)
    ensures AllText(FoldersNamed(cs, name))
  {
    if cs != [] {
      hide IsText;
      assert cs == cs[..|cs| - 1] + [cs[|cs| - 1]];
      FoldersText(cs[..|cs| - 1], name);
    }
  }

  lemma {:induction false} ReadablesText(refs: seq<ShareRef>)
    requires AllText(refs)
    ensures AllText(Readables(refs)) && AllText(Gathered(refs))
  {
    if refs != [] {
      hide IsText, Readable;
      assert refs == refs[..|refs| - 1] + [refs[|refs| - 1]];
      ReadablesText(refs[..|refs| - 1]);
    }
  }

  /** Merging one more folder into one shown already: the two decodings succeed iff the first
      folder of the name, and the new one, can be read back; only then is the new one added. */
  lemma MergeFolder(wire: Wire, cs: seq<Child>, files: seq<Item>, idx: nat, c: Child)
    requires Shows(wire, cs, files) && idx < |files| && Names(cs)[idx] == c.name
    requires files[idx].isDir && c.isDir && Faithful(wire) && MembersText(cs)
    ensures FirstNamed(cs, c.name).Some?
    ensures var refs := Gathered(FoldersNamed(cs, c.name));
            var first := FirstNamed(cs, c.name).value;
            && DecodeRefs(wire, files[idx].id) == (if Readable(first.ref) then Some(refs) else None)
            && DecodeRefs(wire, ItemOfChild(c).id) == (if Readable(c.ref) then Some([c.ref]) else None)
            && Shows(wire, cs + [c], if Readable(first.ref) && Readable(c.ref)
                                     then files[idx := Item(EncodeRefs(wire, refs + [c.ref]), c.name, true)]
                                     else files)
  {
    hide Readable, FirstNamed, Names, FoldersNamed, Gathered;
    NamesSnoc(cs, c);
    NamesExact(cs);
    FirstFolder(cs, c.name);
    FoldersText(cs, c.name);
    hide MembersText, AllText;
    GatheredReads(wire, FoldersNamed(cs, c.name));
    SurvivesId(wire, c.ref);
    hide EncodeRefs, DecodeRefs;
    forall k | 0 <= k < |files|
      ensures FirstNamed(cs + [c], Names(cs)[k]).Some?
      ensures View(cs + [c], Names(cs)[k])
           == if k == idx && Readable(FirstNamed(cs, c.name).value.ref) && Readable(c.ref)
              then Merged(c.name, true, Gathered(FoldersNamed(cs, c.name)) + [c.ref]) else View(cs, Names(cs)[k])
    {
      ViewSnoc(cs, c, Names(cs)[k]);
    }
  }

  /** The id of a merged folder reads back iff its first folder can be read back. */
  lemma GatheredReads(wire: Wire, refs: seq<ShareRef>)
    requires Faithful(wire) && refs != [] && AllText(refs)
    ensures DecodeRefs(wire, EncodeRefs(wire, Gathered(refs)))
         == if Readable(refs[0]) then Some(Gathered(refs)) else None
  {
    ReadablesText(refs);
    hide IsText;
    RefsRoundTrip(wire, Gathered(refs));
    if Readable(refs[0]) {
      FirstReadable(refs);
    }
  }

  lemma {:induction false} FirstReadable(refs: seq<ShareRef>)
    requires refs != [] && Readable(refs[0])
    ensures Readables(refs) != [] && Readables(refs)[0] == refs[0]
  {
    if |refs| > 1 {
      FirstReadable(refs[..|refs| - 1]);
    }
  }

  lemma SurvivesId(wire: Wire, ref: ShareRef)
    requires Faithful(wire)
    ensures DecodeRefs(wire, EncodeRef(ref)) == if Readable(ref) then Some([ref]) else None
  {
    RefsRoundTrip(wire, [ref]);
  }

  // ---------- The merged listing ----------

  /** The first node whose listing fails. */
  function FirstFailure(shares: Shares, refs: seq<ShareRef>): Option<ShareRef> {
    if refs == [] then None
    else
      match FirstFailure(shares, refs[..|refs| - 1])
      case Some(r) => Some(r)
      case None => if Effective(refs[|refs| - 1]) in shares then None else Some(refs[|refs| - 1])
  }

  /** The failure reported is that of the first node that cannot be listed. */
  lemma {:induction false} FirstFailureIs(shares: Shares, refs: seq<ShareRef>, i: nat)
    ensures FirstFailure(shares, refs).None? <==> forall r <- refs :: Effective(r) in shares
    ensures i < |refs| && Effective(refs[i]) !in shares && (forall r <- refs[..i] :: Effective(r) in shares)
        ==> FirstFailure(shares, refs) == Some(refs[i])
  {
    if refs != [] {
      var n := |refs| - 1;
      assert refs == refs[..n] + [refs[n]];
      FirstFailureIs(shares, refs[..n], i);
      if i < n {
        assert refs[..n][..i] == refs[..i];
      }
    }
  }

  /** All node ids that the server answers with are text. */
  ghost predicate TextShares(shares: Shares) {
    forall r <- shares ::
      && (forall e <- shares[r].folders :: IsUtf8(e.node))
      && (forall e <- shares[r].files :: IsUtf8(e.node))
  }

  lemma OwnChildrenText(shares: Shares, ref: ShareRef)
    requires TextShares(shares) && IsText(ref)
    ensures MembersText(ChildrenOf(shares, ref))
  {
    hide IsUtf8;
    if Effective(ref) in shares {
      var listing := shares[Effective(ref)];
      forall i | 0 <= i < |listing.folders|
        ensures IsText(AsChildren(ref, listing.folders, true)[i].ref)
      {
        assert listing.folders[i] in listing.folders;
      }
      forall i | 0 <= i < |listing.files|
        ensures IsText(AsChildren(ref, listing.files, false)[i].ref)
      {
        assert listing.files[i] in listing.files;
      }
    }
  }

  lemma {:induction false} ChildrenText(shares: Shares, refs: seq<ShareRef>)
    requires TextShares(shares) && AllText(refs)
    ensures MembersText(AllChildren(shares, refs))
  {
    if refs != [] {
      hide IsText, ChildrenOf, TextShares;
      var n := |refs| - 1;
      ChildrenText(shares, refs[..n]);
      assert refs[n] in refs;
      OwnChildrenText(shares, refs[n]);
    }
  }

  lemma SomeText(before: seq<Child>, cs: seq<Child>, j: nat)
    requires MembersText(before) && MembersText(cs) && j <= |cs|
    ensures MembersText(before + cs[..j])
  {
  }

  /** Adds one listed object to the merged directory. */
  method MergeItem(wire: Wire, files: seq<Item>, indices: map<Str, nat>, item: Item,
                   ghost cs: seq<Child>, ghost c: Child)
      returns (files': seq<Item>, indices': map<Str, nat>)
    requires Faithful(wire) && MembersText(cs)
    requires Shows(wire, cs, files) && Positions(Names(cs), indices) && item == ItemOfChild(c)
    ensures Shows(wire, cs + [c], files') && Positions(Names(cs + [c]), indices')
  {
    hide Names, FirstNamed, FoldersNamed, Gathered, View, EncodeRefs, DecodeRefs, Shows, Readable, MembersText;
    NamesSnoc(cs, c);
    ShownNames(wire, cs, files);
    if item.name !in indices {
      MergeNew(wire, cs, files, c);
      return files + [item], indices[item.name := |files|];
    }
    var idx := indices[item.name];
    if !files[idx].isDir || !item.isDir {
      MergeIgnored(wire, cs, files, idx, c);
      return files, indices;
    }
    MergeFolder(wire, cs, files, idx, c);
    var existingRefs, itemRefs := DecodeRefs(wire, files[idx].id), DecodeRefs(wire, item.id);
    if existingRefs.None? || itemRefs.None? {
      return files, indices;
    }
    var mergedRefs := existingRefs.value + itemRefs.value;
    return files[idx := Item(EncodeRefs(wire, mergedRefs), item.name, true)], indices;
  }

  lemma ShownNames(wire: Wire, cs: seq<Child>, files: seq<Item>)
    requires Shows(wire, cs, files)
    ensures |files| == |Names(cs)|
  {
  }

  /** Lists several nodes as one directory: one object per name, in the order of first
      appearance.  A node that cannot be listed is left out; only when nothing at all is
      shown does its failure count. */
  method GetMergedFiles(shares: Shares, wire: Wire, refs: seq<ShareRef>) returns (r: Result<seq<Item>, ShareRef>)
    requires Faithful(wire) && TextShares(shares) && AllText(refs)
    ensures var cs := AllChildren(shares, refs);
            if cs == [] && FirstFailure(shares, refs).Some? then r == Err(FirstFailure(shares, refs).value)
            else r.Ok? && Shows(wire, cs, r.value)
  {
    hide Names, FirstNamed, View, EncodeRefs, ChildrenOf, Readable, IsText, TextShares, MembersText, ListsAll,
      Shows, Positions, Faithful;
    var files := [];
    var indices: map<Str, nat> := map[];
    var firstErr: Option<ShareRef> := None;
    NoneShown(wire);
    for i := 0 to |refs|
      invariant Shows(wire, AllChildren(shares, refs[..i]), files)
      invariant Positions(Names(AllChildren(shares, refs[..i])), indices)
      invariant firstErr == FirstFailure(shares, refs[..i])
    {
      assert refs[..i + 1][..i] == refs[..i];
      ghost var before := AllChildren(shares, refs[..i]);
      ghost var cs := ChildrenOf(shares, refs[i]);
      ChildrenText(shares, refs[..i]);
      assert refs[i] in refs;
      OwnChildrenText(shares, refs[i]);
      var items := GetFilesWithRef(shares, refs[i]);
      if items.None? {
        Unlisted(shares, refs[i]);
        assert before + cs == before;
        if firstErr.None? {
          firstErr := Some(refs[i]);
        }
        continue;
      }
      ItemsAreMembers(shares, refs[i], items.value);
      assert before + cs[..0] == before;
      for j := 0 to |items.value|
        invariant Shows(wire, before + cs[..j], files)
        invariant Positions(Names(before + cs[..j]), indices)
      {
        assert before + cs[..j + 1] == before + cs[..j] + [cs[j]];
        SomeText(before, cs, j);
        files, indices := MergeItem(wire, files, indices, items.value[j], before + cs[..j], cs[j]);
      }
      assert before + cs[..|cs|] == before + cs;
    }
    assert refs[..|refs|] == refs;
    ghost var all := AllChildren(shares, refs);
    if |files| == 0 && firstErr.Some? {
      ShownNames(wire, all, files);
      NamesEmpty(all);
      return Err(firstErr.value);
    }
    ShownNames(wire, all, files);
    NoneShown(wire);
    return Ok(files);
  }

  lemma NoneShown(wire: Wire)
    ensures Names([]) == [] && Shows(wire, [], []) && Positions([], map[])
  {
  }

  lemma Unlisted(shares: Shares, ref: ShareRef)
    requires Effective(ref) !in shares
    ensures ChildrenOf(shares, ref) == []
  {
  }

  lemma NamesEmpty(cs: seq<Child>)
    ensures Names(cs) == [] ==> cs == []
  {
  }

  // ---------- Path lookup in the merged tree ----------

  /** What a path leads to: a folder standing for several nodes, a file, nothing, or a folder
      none of whose nodes could be listed.  A folder whose id cannot be read back counts as
      nothing. */
  datatype Found = Folder(refs: seq<ShareRef>) | File(ref: ShareRef) | Missing | Unlistable(ref: ShareRef)

  /** The lookup, one merged directory after another. */
  function Resolve(shares: Shares, refs: seq<ShareRef>, parts: seq<Str>): Found
    requires parts != []
    decreases |parts|
  {
    var cs := AllChildren(shares, refs);
    if cs == [] && FirstFailure(shares, refs).Some? then Unlistable(FirstFailure(shares, refs).value)
    else
      match FirstNamed(cs, parts[0])
      case None => Missing
      case Some(c) =>
        if c.isDir then
          var next := Gathered(FoldersNamed(cs, parts[0]));
          if !Readable(c.ref) then Missing
          else if |parts| == 1 then Folder(next) else Resolve(shares, next, parts[1..])
        else if |parts| == 1 then File(c.ref) else Missing
  }

  /** No other member has this one's name. */
  ghost predicate OnlyNamed(cs: seq<Child>, i: nat) {
    i < |cs| && forall j | 0 <= j < |cs| :: cs[j].name == cs[i].name ==> j == i
  }

  lemma {:induction false} OnlyOneFound(cs: seq<Child>, i: nat)
    requires OnlyNamed(cs, i)
    ensures FirstNamed(cs, cs[i].name) == Some(cs[i])
    ensures FoldersNamed(cs, cs[i].name) == if cs[i].isDir then [cs[i].ref] else []
  {
    var n := |cs| - 1;
    if i < n {
      OnlyOneFound(cs[..n], i);
    } else {
      NamesExact(cs[..n]);
      NoFolders(cs[..n], cs[i].name);
    }
  }

  lemma OnlyOneResolved(shares: Shares, ref: ShareRef, i: nat)
    requires Readable(ref) && OnlyNamed(ChildrenOf(shares, ref), i)
    requires ChildrenOf(shares, ref)[i].ref.link == ref.link
    ensures var c := ChildrenOf(shares, ref)[i];
            Resolve(shares, [ref], [c.name]) == if c.isDir then Folder([c.ref]) else File(c.ref)
  {
    hide FirstNamed, FoldersNamed, ChildrenOf, Gathered;
    var cs := ChildrenOf(shares, ref);
    assert [ref][..0] == [] && AllChildren(shares, [ref]) == [] + cs == cs;
    OnlyOneFound(cs, i);
    GatheredOne(cs[i].ref);
  }

  /** Looking up the name of a folder, or of a file, that is the only entry of that name leads to its own
      node in the same share. */
  lemma EntryFound(shares: Shares, ref: ShareRef, i: nat)
    requires Readable(ref)
    ensures var at := ShareRef(ref.link, ref.password, if ref.node == [] then ROOT else ref.node);
            at in shares ==>
              var folders, files := shares[at].folders, shares[at].files;
              && (i < |folders| && OnlyNamed(ChildrenOf(shares, ref), i) ==>
                    Resolve(shares, [ref], [folders[i].name])
                    == Folder([ShareRef(ref.link, ref.password, folders[i].node)]))
              && (i < |files| && OnlyNamed(ChildrenOf(shares, ref), |folders| + i) ==>
                    Resolve(shares, [ref], [files[i].name])
                    == File(ShareRef(ref.link, ref.password, files[i].node)))
  {
    hide Resolve, ChildrenOf, OnlyNamed, Readable;
    var cs := ChildrenOf(shares, ref);
    Members(shares, ref);
    var at := ShareRef(ref.link, ref.password, if ref.node == [] then ROOT else ref.node);
    if at in shares {
      var folders, files := shares[at].folders, shares[at].files;
      if i < |folders| && OnlyNamed(cs, i) {
        OnlyOneResolved(shares, ref, i);
      }
      if i < |files| && OnlyNamed(cs, |folders| + i) {
        assert cs[|folders| + i].ref.link == ref.link;
        OnlyOneResolved(shares, ref, |folders| + i);
      }
    }
  }

  datatype LookupError = ObjectNotFound | ListFailed(ref: ShareRef)

  /** The object that a lookup result stands for. */
  ghost predicate Answers(wire: Wire, found: Found, name: Str, r: Result<Item, LookupError>) {
    match found
    case Folder(refs) => r == Ok(Item(EncodeRefs(wire, refs), name, true))
    case File(ref) => r == Ok(Item(EncodeRef(ref), name, false))
    case Missing => r == Err(ObjectNotFound)
    case Unlistable(ref) => r == Err(ListFailed(ref))
  }

  lemma ShownUnder(wire: Wire, cs: seq<Child>, items: seq<Item>, name: Str)
    requires Shows(wire, cs, items)
    ensures forall k | 0 <= k < |items| ::
              items[k].name == name <==> FirstNamed(cs, name).Some? && items[k] == ItemOf(wire, View(cs, name))
    ensures FirstNamed(cs, name).Some? ==> exists k :: 0 <= k < |items| && items[k].name == name
    ensures FirstNamed(cs, name).None? ==> forall k | 0 <= k < |items| :: items[k].name != name
  {
    NamesExact(cs);
    hide FirstNamed, Names, EncodeRefs;
    forall k | 0 <= k < |items| ensures items[k].name == Names(cs)[k] {
    }
    if FirstNamed(cs, name).Some? {
      assert name in Names(cs);
      var k :| 0 <= k < |Names(cs)| && Names(cs)[k] == name;
      assert items[k].name == name;
    }
  }

  /** Walks the merged tree along a path.  The outcome is the one `Resolve` defines, and the id
      of the object found carries all its references. */
  method GetObj(shares: Shares, wire: Wire, roots: seq<ShareRef>, parts: seq<Str>)
      returns (r: Result<Item, LookupError>)
    requires Faithful(wire) && TextShares(shares) && AllText(roots) && parts != []
    ensures Answers(wire, Resolve(shares, roots, parts), parts[|parts| - 1], r)
  {
    hide FirstNamed, Names, View, FoldersNamed, Gathered, EncodeRefs, DecodeRefs, Readable, Shows, AllChildren,
      AllText, MembersText, TextShares;
    var currentRefs := roots;
    var currentObj: Option<Item> := None;
    assert parts[0..] == parts;
    for idx := 0 to |parts|
      invariant AllText(currentRefs)
      invariant idx < |parts| ==> Resolve(shares, roots, parts) == Resolve(shares, currentRefs, parts[idx..])
      invariant idx == |parts| ==>
                  currentObj.Some? && Answers(wire, Resolve(shares, roots, parts), parts[idx - 1], Ok(currentObj.value))
    {
      var part := parts[idx];
      assert parts[idx..][0] == part && parts[idx..][1..] == parts[idx + 1..];
      var listed := GetMergedFiles(shares, wire, currentRefs);
      if listed.Err? {
        return Err(ListFailed(listed.error));
      }
      var items := listed.value;
      ghost var cs := AllChildren(shares, currentRefs);
      ghost var found := Resolve(shares, currentRefs, parts[idx..]);
      ShownUnder(wire, cs, items, part);
      ChildrenText(shares, currentRefs);
      FoldersText(cs, part);
      ReadablesText(FoldersNamed(cs, part));
      var matched := false;
      for k := 0 to |items|
        invariant AllText(currentRefs)
        invariant !matched ==> forall j | 0 <= j < k :: items[j].name != part
        invariant matched ==> idx == |parts| - 1 && currentObj.Some? && Answers(wire, found, part, Ok(currentObj.value))
      {
        if items[k].name != part {
          continue;
        }
        matched := true;
        currentObj := Some(items[k]);
        ViewKinds(cs, part);
        if items[k].isDir {
          FolderIdReads(wire, cs, part);
          var itemRefs := DecodeRefs(wire, items[k].id);
          if itemRefs.None? {
            return Err(ObjectNotFound);
          }
          currentRefs := itemRefs.value;
          break;
        }
        if idx != |parts| - 1 {
          return Err(ObjectNotFound);
        }
      }
      if !matched {
        return Err(ObjectNotFound);
      }
    }
    return Ok(currentObj.value);
  }

  lemma ViewKinds(cs: seq<Child>, name: Str)
    requires FirstNamed(cs, name).Some?
    ensures View(cs, name)
         == var first := FirstNamed(cs, name).value;
            if first.isDir then Merged(name, true, Gathered(FoldersNamed(cs, name)))
            else Merged(name, false, [first.ref])
    ensures forall wire, ref :: EncodeRefs(wire, [ref]) == EncodeRef(ref)
  {
  }

  /** The id of a folder shown decodes to all it stands for iff its first folder can be read
      back, and to nothing otherwise. */
  lemma FolderIdReads(wire: Wire, cs: seq<Child>, name: Str)
    requires Faithful(wire) && MembersText(cs)
    requires FirstNamed(cs, name).Some? && FirstNamed(cs, name).value.isDir
    ensures var refs := Gathered(FoldersNamed(cs, name));
            DecodeRefs(wire, EncodeRefs(wire, refs))
            == if Readable(FirstNamed(cs, name).value.ref) then Some(refs) else None
  {
    FirstFolder(cs, name);
    FoldersText(cs, name);
    GatheredReads(wire, FoldersNamed(cs, name));
  }
}
