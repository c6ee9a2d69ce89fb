/** Language files: the merge as it runs on documents in memory. A nested document of the source
    that the target lacks is not copied: afterwards both share it. */
module MergeDocument {
  import opened MergeJson

  datatype Value = Text(text: string) | Nested(doc: Document)

  /** A mutable object of a decoded JSON document. */
  class Document {
    var entries: map<string, Value>
    /** This object and all objects nested in it. */
    ghost var Repr: set<Document>

    /** The objects form a tree. */
    ghost predicate Valid()
      reads this, Repr
      decreases Repr
    {
      && this in Repr
      && (forall k | k in entries && entries[k].Nested? :: entries[k].doc in Repr)
      && (forall k | k in entries && entries[k].Nested? :: entries[k].doc.Repr <= Repr - {this})
      && (forall k | k in entries && entries[k].Nested? :: entries[k].doc.Valid())
      && (forall j, k | j in entries && k in entries && j != k && entries[j].Nested? && entries[k].Nested? ::
            entries[j].doc.Repr !! entries[k].doc.Repr)
    }

    /** The document as a value. */
    ghost function View(): (v: Json)
      requires Valid()
      reads this, Repr
      ensures v.Object? && v.entries.Keys == entries.Keys
      decreases Repr, 1
    {
      Object(map k | k in entries :: At(k))
    }

    ghost function At(k: string): Json
      requires Valid() && k in entries
      reads this, Repr
      decreases Repr, 0
    {
      match entries[k]
      case Text(t) => Leaf(t)
      case Nested(o) => o.View()
    }
  }

  /** The objects under one key. */
  ghost function Under(d: Document, k: string): set<Document>
    reads d, if k in d.entries && d.entries[k].Nested? then {d.entries[k].doc} else {}
  {
    if k in d.entries && d.entries[k].Nested? then d.entries[k].doc.Repr else {}
  }

  lemma Parts(d: Document, k: string)
    requires d.Valid() && k in d.entries
    ensures d in d.Repr && Under(d, k) <= d.Repr - {d}
    ensures match d.entries[k]
            case Text(t) => Under(d, k) == {} && d.At(k) == Leaf(t)
            case Nested(o) => o in d.Repr && Under(d, k) == o.Repr && o.Valid() && d.At(k) == o.View()
  {
  }

  lemma Apart(d: Document, j: string, k: string)
    requires d.Valid() && j in d.entries && k in d.entries && j != k
    ensures Under(d, j) !! Under(d, k)
  {
  }

  /** A tree is put together from trees that do not overlap. */
  lemma PutTogether(d: Document)
    requires d in d.Repr
    requires forall k | k in d.entries && d.entries[k].Nested? ::
               d.entries[k].doc.Valid() && d.entries[k].doc.Repr <= d.Repr - {d}
    requires forall j, k | j in d.entries && k in d.entries && j != k :: Under(d, j) !! Under(d, k)
    ensures d.Valid()
  {
    forall k | k in d.entries && d.entries[k].Nested? ensures d.entries[k].doc in d.Repr {
      Root(d.entries[k].doc);
    }
    forall j, k | j in d.entries && k in d.entries && j != k && d.entries[j].Nested? && d.entries[k].Nested?
      ensures d.entries[j].doc.Repr !! d.entries[k].doc.Repr
    {
      assert Under(d, j) !! Under(d, k);
    }
  }

  lemma Root(d: Document)
    requires d.Valid()
    ensures d in d.Repr
  {
  }

  /** A tree that no write touches stays as it is. */
  twostate lemma Untouched(d: Document)
    requires old(d.Valid()) && unchanged(old(d.Repr))
    ensures d.Valid() && d.Repr == old(d.Repr) && d.View() == old(d.View())
  {
  }

  /** An entry that keeps its value, in a tree that no write touches, stays as it is. */
  twostate lemma EntryStays(d: Document, new j: string)
    requires old(d.Valid() && j in d.entries)
    requires j in d.entries && d.entries[j] == old(d.entries[j])
    requires unchanged(old(Under(d, j)))
    ensures Under(d, j) == old(Under(d, j))
    ensures d.entries[j].Nested? ==> d.entries[j].doc.Valid() && d.entries[j].doc.View() == old(d.At(j))
    ensures d.entries[j].Text? ==> Leaf(d.entries[j].text) == old(d.At(j))
  {
    if d.entries[j].Nested? {
      Untouched(d.entries[j].doc);
    }
  }

  twostate lemma OldParts(d: Document)
    requires old(d.Valid())
    ensures old(d in d.Repr)
    ensures forall j | j in old(d.entries) :: old(Under(d, j)) <= old(d.Repr) - {d}
    ensures forall i, j | i in old(d.entries) && j in old(d.entries) && i != j :: old(Under(d, i)) !! old(Under(d, j))
  {
  }

  /** What replacing the entry under `k` leaves, given that the other entries stay as they are. */
  twostate lemma Replaced(d: Document, new k: string)
    requires old(d.Valid())
    requires k in d.entries && d.entries.Keys == old(d.entries.Keys) + {k}
    requires forall j | j in old(d.entries) && j != k :: d.entries[j] == old(d.entries[j])
    requires forall j | j in old(d.entries) && j != k :: unchanged(old(Under(d, j)))
    requires d.entries[k].Nested? ==> d.entries[k].doc.Valid() && d !in d.entries[k].doc.Repr
    requires forall j | j in old(d.entries) && j != k :: old(Under(d, j)) !! Under(d, k)
    requires d.Repr == old(d.Repr) + Under(d, k)
    ensures d.Valid()
    ensures forall j | j in old(d.entries) && j != k :: Under(d, j) == old(Under(d, j)) && d.At(j) == old(d.At(j))
  {
    hide Document.Valid, Document.View, Document.At;
    OldParts(d);
    forall j | j in old(d.entries) && j != k
      ensures Under(d, j) == old(Under(d, j))
      ensures d.entries[j].Nested? ==> d.entries[j].doc.Valid() && d.entries[j].doc.View() == old(d.At(j))
      ensures d.entries[j].Text? ==> Leaf(d.entries[j].text) == old(d.At(j))
    {
      EntryStays(d, j);
    }
    PutTogether(d);
    forall j | j in old(d.entries) && j != k ensures d.At(j) == old(d.At(j)) {
      Parts(d, j);
    }
  }

  /** Takes over what stands under a key that the target lacks. */
  method TakeOver(source: Document, target: Document, k: string)
    requires source.Valid() && target.Valid() && k in source.entries
    requires target !in source.Repr && Under(target, k) !! source.Repr
    requires forall j | j in target.entries && j != k :: Under(target, j) !! Under(source, k)
    requires k !in target.entries
    modifies target
    ensures target.Valid() && target.Repr == old(target.Repr) + Under(target, k)
    ensures target.entries.Keys == old(target.entries.Keys) + {k}
    ensures Under(target, k) <= old(Under(target, k)) + Under(source, k)
    ensures forall j | j in old(target.entries) && j != k ::
              Under(target, j) == old(Under(target, j)) && target.At(j) == old(target.At(j))
    ensures target.At(k) == source.At(k)
  {
    hide Document.Valid, Document.View, Document.At;
    var v := source.entries[k];
    Parts(source, k);
    target.entries := target.entries[k := v];
    if v.Nested? {
      target.Repr := target.Repr + v.doc.Repr;
    }
    Untouched(source);
    Parts(source, k);
    OldParts(target);
    Replaced(target, k);
    Parts(target, k);
  }

  /** Merges the objects that both have under one key. */
  method MergeNested(source: Document, target: Document, k: string) returns (same: bool)
    requires source.Valid() && target.Valid() && k in source.entries
    requires target !in source.Repr && Under(target, k) !! source.Repr
    requires forall j | j in target.entries && j != k :: Under(target, j) !! Under(source, k)
    requires k in target.entries && source.entries[k].Nested? && target.entries[k].Nested?
    modifies target, Under(target, k)
    ensures target.Valid() && target.Repr == old(target.Repr) + Under(target, k)
    ensures target.entries.Keys == old(target.entries.Keys) + {k}
    ensures Under(target, k) <= old(Under(target, k)) + Under(source, k)
    ensures forall j | j in old(target.entries) && j != k ::
              Under(target, j) == old(Under(target, j)) && target.At(j) == old(target.At(j))
    ensures target.At(k) == MergeJson.Merge(source.At(k), old(target.At(k)))
    ensures same == Covers(source.At(k), old(target.At(k)))
    decreases source.Repr, 0
  {
    hide Document.Valid, Document.View, Document.At, MergeJson.Merge, Covers;
    var v, w := source.entries[k].doc, target.entries[k].doc;
    Parts(source, k);
    Parts(target, k);
    OldParts(target);
    same := Merge(v, w);
    target.Repr := target.Repr + w.Repr;
    Untouched(source);
    Parts(source, k);
    Replaced(target, k);
    Parts(target, k);
  }

  /** Deals with one key: takes over what the target lacks, merges two objects, leaves the rest. */
  method MergeKey(source: Document, target: Document, k: string) returns (same: bool)
    requires source.Valid() && target.Valid() && k in source.entries
    requires target !in source.Repr && Under(target, k) !! source.Repr
    requires forall j | j in target.entries && j != k :: Under(target, j) !! Under(source, k)
    modifies target, Under(target, k)
    ensures target.Valid() && target.Repr == old(target.Repr) + Under(target, k)
    ensures target.entries.Keys == old(target.entries.Keys) + {k}
    ensures Under(target, k) <= old(Under(target, k)) + Under(source, k)
    ensures forall j | j in old(target.entries) && j != k ::
              Under(target, j) == old(Under(target, j)) && target.At(j) == old(target.At(j))
    ensures target.At(k) == if k in old(target.entries) then MergeJson.Merge(source.At(k), old(target.At(k)))
                            else source.At(k)
    ensures same == (k in old(target.entries) && Covers(source.At(k), old(target.At(k))))
    decreases source.Repr, 1
  {
    hide Document.Valid, Document.View;
    if k !in target.entries {
      same := false;
      TakeOver(source, target, k);
    } else if source.entries[k].Nested? && target.entries[k].Nested? {
      same := MergeNested(source, target, k);
    } else {
      same := true;
      Parts(target, k);
    }
  }

  /** A merge under way: the two documents, the target's first value, and its first objects, key by
      key and all together. */
  datatype Merging = Merging(source: Document, target: Document, first: Json,
                             under: map<string, set<Document>>, repr: set<Document>)

  /** How far the merge is: the keys in `keys` are still to be visited. */
  ghost predicate Progress(m: Merging, keys: set<string>)
    reads m.source, m.source.Repr, m.target, m.target.Repr
  {
    && Outline(m, keys)
    && (forall k | k in m.target.entries :: KeyRight(m, keys, k))
  }

  ghost predicate Outline(m: Merging, keys: set<string>)
    reads m.source, m.source.Repr, m.target, m.target.Repr
  {
    && m.source.Valid() && m.target.Valid() && m.first.Object? && keys <= m.source.entries.Keys
    && m.target in m.repr && m.repr !! m.source.Repr && m.target.Repr <= m.repr + m.source.Repr
    && m.under.Keys == m.first.entries.Keys
    && m.target.entries.Keys == m.first.entries.Keys + (m.source.entries.Keys - keys)
    && (forall k | k in m.under :: m.under[k] <= m.repr)
    && (forall j, k | j in m.under && k in m.under && j != k :: m.under[j] !! m.under[k])
  }

  /** The entry under `k` is as it was while `k` is still to be visited, and the merged one after. */
  ghost predicate KeyRight(m: Merging, keys: set<string>, k: string)
    requires m.source.Valid() && m.target.Valid() && k in m.target.entries
    reads m.source, m.source.Repr, m.target, m.target.Repr
  {
    && m.first.Object? && k in m.source.entries.Keys + m.first.entries.Keys
    && m.under.Keys == m.first.entries.Keys
    && Under(m.target, k) <= (if k in m.under then m.under[k] else {}) + Under(m.source, k)
    && if k in keys then k in m.under && Under(m.target, k) == m.under[k] && m.target.At(k) == m.first.entries[k]
       else m.target.At(k) == MergedAt(m.source.View(), m.first, k)
  }

  lemma Ready(m: Merging, keys: set<string>, k: string)
    requires Progress(m, keys) && k in keys
    ensures m.target !in m.source.Repr && Under(m.target, k) !! m.source.Repr && Under(m.target, k) <= m.repr
    ensures forall j | j in m.target.entries && j != k :: Under(m.target, j) !! Under(m.source, k)
  {
    hide Document.Valid, Document.View, Document.At, MergedAt;
    Parts(m.source, k);
    assert k in m.target.entries ==> KeyRight(m, keys, k);
    forall j | j in m.target.entries && j != k ensures Under(m.target, j) !! Under(m.source, k) {
      assert KeyRight(m, keys, j);
      if j in m.source.entries {
        Apart(m.source, j, k);
      }
    }
  }

  /** What visiting one key does, as `MergeKey` promises it. */
  twostate predicate Visited(m: Merging, new k: string, same: bool)
    requires old(m.source.Valid() && m.target.Valid())
    requires m.source.Valid() && m.target.Valid() && k in m.source.entries
    reads m.source, m.source.Repr, m.target, m.target.Repr
  {
    && m.target.Repr == old(m.target.Repr) + Under(m.target, k)
    && m.target.entries.Keys == old(m.target.entries.Keys) + {k}
    && Under(m.target, k) <= old(Under(m.target, k)) + Under(m.source, k)
    && (forall j | j in old(m.target.entries) && j != k ::
          Under(m.target, j) == old(Under(m.target, j)) && m.target.At(j) == old(m.target.At(j)))
    && m.target.At(k) == (if k in old(m.target.entries) then MergeJson.Merge(m.source.At(k), old(m.target.At(k)))
                          else m.source.At(k))
    && same == (k in old(m.target.entries) && Covers(m.source.At(k), old(m.target.At(k))))
  }

  lemma ViewAt(d: Document, k: string)
    requires d.Valid() && k in d.entries
    ensures d.View().entries[k] == d.At(k)
  {
  }

  twostate lemma VisitIt(m: Merging, new keys: set<string>, new k: string, new same: bool)
    requires old(Progress(m, keys)) && k in keys
    requires unchanged(old(m.source.Repr)) && m.target.Valid()
    requires m.source.Valid() && Visited(m, k, same)
    ensures KeyRight(m, keys - {k}, k)
    ensures same == (k in m.first.entries && Covers(m.source.View().entries[k], m.first.entries[k]))
  {
    hide Document.Valid, Document.View, Document.At, Covers, MergeJson.Merge;
    Untouched(m.source);
    Parts(m.source, k);
    ViewAt(m.source, k);
    assert k in old(m.target.entries) ==> old(KeyRight(m, keys, k));
  }

  twostate lemma VisitOther(m: Merging, new keys: set<string>, new k: string, new same: bool, new j: string)
    requires old(m.source.Valid() && m.target.Valid() && j in m.target.entries && KeyRight(m, keys, j))
    requires unchanged(old(m.source.Repr)) && m.target.Valid()
    requires k in m.source.entries && m.source.Valid() && Visited(m, k, same)
    requires j in m.target.entries && j != k
    ensures KeyRight(m, keys - {k}, j)
  {
    hide Document.Valid, Document.View, Document.At, Covers, MergeJson.Merge, MergedAt;
    Untouched(m.source);
  }

  twostate lemma OutlineStays(m: Merging, new keys: set<string>, new k: string, new same: bool)
    requires old(Progress(m, keys)) && k in keys
    requires unchanged(old(m.source.Repr)) && m.target.Valid()
    requires m.source.Valid() && Visited(m, k, same)
    ensures Outline(m, keys - {k})
  {
    hide Document.Valid, Document.View, Document.At, MergedAt, MergeJson.Merge, Covers, KeyRight;
    Untouched(m.source);
    Parts(m.source, k);
    OldParts(m.target);
  }

  twostate lemma VisitOne(m: Merging, new keys: set<string>, new k: string, new same: bool)
    requires old(Progress(m, keys)) && k in keys
    requires unchanged(old(m.source.Repr)) && m.target.Valid()
    requires m.source.Valid() && Visited(m, k, same)
    ensures Progress(m, keys - {k})
    ensures same == (k in m.first.entries && Covers(m.source.View().entries[k], m.first.entries[k]))
  {
    hide Document.Valid, Document.View, Document.At, Covers, KeyRight, Visited;
    Untouched(m.source);
    OutlineStays(m, keys, k, same);
    VisitIt(m, keys, k, same);
    forall j | j in m.target.entries ensures KeyRight(m, keys - {k}, j) {
      if j != k {
        VisitOther(m, keys, k, same, j);
      }
    }
  }

  /** The state before any key is visited. */
  lemma Start(source: Document, target: Document) returns (m: Merging)
    requires source.Valid() && target.Valid() && source.Repr !! target.Repr
    ensures m.source == source && m.target == target && m.first == target.View() && m.repr == target.Repr
    ensures Progress(m, source.entries.Keys)
  {
    hide Document.Valid, Document.View, Document.At;
    var under := map k | k in target.entries :: Under(target, k);
    m := Merging(source, target, target.View(), under, target.Repr);
    Root(target);
    forall k | k in target.entries
      ensures KeyRight(m, source.entries.Keys, k) && under[k] <= m.repr
    {
      Parts(target, k);
      ViewAt(target, k);
    }
    forall j, k | j in under && k in under && j != k ensures under[j] !! under[k] {
      Apart(target, j, k);
    }
  }

  /** The visited keys are all in the target's first value, with covered values. */
  predicate Covered(source: Json, first: Json, visited: set<string>)
    requires source.Object? && first.Object? && visited <= source.entries.Keys
  {
    forall k <- visited :: k in first.entries && Covers(source.entries[k], first.entries[k])
  }

  lemma NoneVisited(source: Json, first: Json)
    requires source.Object? && first.Object?
    ensures Covered(source, first, {})
  {
  }

  lemma OneMore(source: Json, first: Json, all: set<string>, keys: set<string>, k: string)
    requires source.Object? && first.Object? && all == source.entries.Keys && keys <= all && k in keys
    ensures Covered(source, first, all - (keys - {k}))
       <==> Covered(source, first, all - keys) && k in first.entries && Covers(source.entries[k], first.entries[k])
  {
    assert all - (keys - {k}) == all - keys + {k};
  }

  lemma AllCovered(source: Json, first: Json)
    requires source.Object? && first.Object?
    ensures Covered(source, first, source.entries.Keys) == Covers(source, first)
  {
  }

  /** When every key has been visited the target is the merged value. */
  lemma Finished(m: Merging)
    requires Progress(m, {})
    ensures m.target.Valid() && m.target.View() == MergeJson.Merge(m.source.View(), m.first)
  {
    hide Document.Valid, Document.At, MergedAt;
    forall k | k in m.target.entries ensures m.target.At(k) == MergedAt(m.source.View(), m.first, k) {
      assert KeyRight(m, {}, k);
    }
    assert m.target.View().entries == MergeJson.Merge(m.source.View(), m.first).entries;
  }

  method Visit(source: Document, target: Document, k: string, ghost m: Merging, ghost keys: set<string>)
      returns (same: bool)
    requires m.source == source && m.target == target && Progress(m, keys) && k in keys
    modifies m.repr
    ensures Progress(m, keys - {k})
    ensures source.Repr == old(source.Repr) && source.View() == old(source.View())
    ensures same == (k in m.first.entries && Covers(source.View().entries[k], m.first.entries[k]))
    decreases source.Repr, 2
  {
    hide Document.Valid, Document.View, Document.At, MergedAt, MergeJson.Merge, Covers, KeyRight;
    Root(source);
    Ready(m, keys, k);
    same := MergeKey(source, target, k);
    Untouched(source);
    VisitOne(m, keys, k, same);
  }

  /** Merges `source` into `target`, visiting the keys in any order; says whether nothing changed. */
  method Merge(source: Document, target: Document) returns (equal: bool)
    requires source.Valid() && target.Valid() && source.Repr !! target.Repr
    modifies target.Repr
    ensures target.Valid() && target.Repr <= old(target.Repr) + source.Repr
    ensures target.View() == MergeJson.Merge(source.View(), old(target.View()))
    ensures equal == Covers(source.View(), old(target.View()))
    decreases source.Repr, 3
  {
    hide Document.Valid, Document.View, Document.At, MergedAt, MergeJson.Merge, Covers, Covered, KeyRight;
    Root(source);
    ghost var m := Start(source, target);
    equal := true;
    var keys := source.entries.Keys;
    assert Covered(source.View(), m.first, source.entries.Keys - keys) by {
      assert source.entries.Keys - keys == {};
      NoneVisited(source.View(), m.first);
    }
    while keys != {}
      invariant Progress(m, keys)
      invariant source.Repr == old(source.Repr) && source.View() == old(source.View())
      invariant equal == Covered(source.View(), m.first, source.entries.Keys - keys)
      decreases |keys|
    {
      var k :| k in keys;
      var same := Visit(source, target, k, m, keys);
      OneMore(source.View(), m.first, source.entries.Keys, keys, k);
      keys := keys - {k};
      equal := same && equal;
    }
    Finished(m);
    assert source.entries.Keys - keys == source.entries.Keys;
    AllCovered(source.View(), m.first);
  }
}
