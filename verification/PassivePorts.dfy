/** FTP server: the port ranges offered for passive transfers. */
module PassivePorts {
  import opened Results
  import opened Selection

  /** One side of an entry, each number already read from its text (`None` when it is not one). */
  datatype PortText = One(port: Option<int>) | Range(first: Option<int>, last: Option<int>)

  /** An entry of the configured list: the same ports outside and inside, or two lists joined by a
      colon. */
  datatype Entry = Same(ports: PortText) | Mapped(exposed: PortText, listened: PortText)

  datatype Group = Group(exposedStart: int, listenedStart: int, length: int)

  datatype PortGetter = PortGetter(groups: seq<Group>, totalLength: int)

  predicate IsPort(n: int) { 1024 <= n <= 65535 }

  /** First port and number of ports. A single port is taken as it is; only ranges are checked. */
  function ConvertToPorts(t: PortText): (r: Option<(int, int)>)
    ensures r.Some? ==> r.value.1 >= 1
  {
    match t
    case One(p) => if p.None? then None else Some((p.value, 1))
    case Range(a, b) =>
      if a.None? || b.None? then None
      else if b.value < a.value || !IsPort(a.value) || !IsPort(b.value) then None
      else Some((a.value, b.value - a.value + 1))
  }

  /** The group an entry stands for, if it is a proper one. */
  function GroupOf(e: Entry): (g: Option<Group>)
    ensures g.Some? ==> g.value.length >= 1
  {
    match e
    case Same(p) =>
      var r := ConvertToPorts(p);
      if r.None? then None else Some(Group(r.value.0, r.value.0, r.value.1))
    case Mapped(x, l) =>
      var es, ls := ConvertToPorts(x), ConvertToPorts(l);
      if es.None? || ls.None? || es.value.1 != ls.value.1 then None
      else Some(Group(es.value.0, ls.value.0, es.value.1))
  }

  /** A port that the text lists. */
  predicate Lists(t: PortText, port: int) {
    match t
    case One(p) => p == Some(port)
    case Range(a, b) => a.Some? && b.Some? && a.value <= port <= b.value
  }

  /** A text is accepted iff its numbers could be read and, for a range, it is not reversed and lies
      within 1024..65535; it then stands for exactly the ports it lists. */
  lemma AcceptedPorts(t: PortText)
    ensures ConvertToPorts(t).Some?
       <==> match t
            case One(p) => p.Some?
            case Range(a, b) => a.Some? && b.Some? && 1024 <= a.value <= b.value <= 65535
    ensures ConvertToPorts(t).Some? ==>
              var (first, count) := ConvertToPorts(t).value;
              forall port :: first <= port < first + count <==> Lists(t, port)
  {
  }

  /** The ports clients are told about, and those listened on. */
  function Outside(e: Entry): PortText { if e.Same? then e.ports else e.exposed }

  function Inside(e: Entry): PortText { if e.Same? then e.ports else e.listened }

  predicate InGroup(g: Group, port: int) { g.exposedStart <= port < g.exposedStart + g.length }

  /** A group holds exactly the ports its entry lists outside, and takes them in order to exactly
      the ports it lists inside. */
  lemma GroupPorts(e: Entry, port: int)
    requires GroupOf(e).Some?
    ensures var g := GroupOf(e).value;
            && (InGroup(g, port) <==> Lists(Outside(e), port))
            && (InGroup(g, port) <==> Lists(Inside(e), g.listenedStart + port - g.exposedStart))
  {
    hide ConvertToPorts, Lists;
    AcceptedPorts(Outside(e));
    AcceptedPorts(Inside(e));
  }

  /** Moving one list by some distance gives the other. */
  ghost predicate Parallel(a: PortText, b: PortText) {
    exists distance: int :: Moved(a, b, distance)
  }

  ghost predicate Moved(a: PortText, b: PortText, distance: int) {
    forall port :: Lists(a, port) <==> Lists(b, port + distance)
  }

  /** An entry is accepted iff its texts are, and, when it joins two, they list equally many ports. */
  lemma AcceptedEntries(e: Entry)
    ensures GroupOf(e).Some?
       <==> match e
            case Same(p) => ConvertToPorts(p).Some?
            case Mapped(x, l) => ConvertToPorts(x).Some? && ConvertToPorts(l).Some? && Parallel(x, l)
  {
    if e.Mapped? && ConvertToPorts(e.exposed).Some? && ConvertToPorts(e.listened).Some? {
      var x, l := ConvertToPorts(e.exposed).value, ConvertToPorts(e.listened).value;
      AcceptedPorts(e.exposed);
      AcceptedPorts(e.listened);
      hide ConvertToPorts, Lists;
      if x.1 == l.1 {
        assert Moved(e.exposed, e.listened, l.0 - x.0);
      }
      forall distance | Moved(e.exposed, e.listened, distance) ensures x.1 == l.1 {
        SameLength(e.exposed, e.listened, distance, x.0, x.1, l.0, l.1);
      }
    }
  }

  lemma SameLength(a: PortText, b: PortText, distance: int, s: int, n: int, t: int, m: int)
    requires Moved(a, b, distance) && n >= 1 && m >= 1
    requires forall port :: s <= port < s + n <==> Lists(a, port)
    requires forall port :: t <= port < t + m <==> Lists(b, port)
    ensures n == m
  {
    hide Lists;
    assert Lists(a, s) && Lists(a, s + n - 1) && !Lists(a, s - 1) && !Lists(a, s + n);
    assert Lists(a, t - distance) <==> Lists(b, t - distance + distance);
    assert Lists(a, t - 1 - distance) <==> Lists(b, t - 1 - distance + distance);
    assert Lists(a, t + m - 1 - distance) <==> Lists(b, t + m - 1 - distance + distance);
    assert Lists(a, t + m - distance) <==> Lists(b, t + m - distance + distance);
  }

  function Lengths(groups: seq<Group>): (r: seq<nat>)
    requires forall g <- groups :: g.length >= 0
    ensures |r| == |groups|
  {
    seq(|groups|, i requires 0 <= i < |groups| => groups[i].length)
  }

  /** What `newPortMapper` establishes: no group is empty and the total is the sum of lengths. */
  predicate Consistent(m: PortGetter) {
    (forall g <- m.groups :: g.length >= 1) && m.totalLength == Below(Lengths(m.groups), |m.groups|)
  }

  lemma {:induction false} BelowPrefix(a: seq<nat>, b: seq<nat>, n: nat)
    requires n <= |a| && n <= |b| && a[..n] == b[..n]
    ensures Below(a, n) == Below(b, n)
  {
    if n > 0 {
      assert a[..n - 1] == a[..n][..n - 1] == b[..n][..n - 1] == b[..n - 1];
      BelowPrefix(a, b, n - 1);
      assert a[n - 1] == a[..n][n - 1] == b[n - 1];
    }
  }

  lemma TotalGrows(groups: seq<Group>, g: Group)
    requires g.length >= 0 && forall h <- groups :: h.length >= 0
    ensures Below(Lengths(groups + [g]), |groups| + 1) == Below(Lengths(groups), |groups|) + g.length
  {
    var a, b := Lengths(groups + [g]), Lengths(groups);
    assert a[..|groups|] == b[..|groups|];
    BelowPrefix(a, b, |groups|);
  }

  /** The list is refused as a whole when any entry is not proper. */
  method NewPortMapper(entries: seq<Entry>) returns (r: Option<PortGetter>)
    ensures r.None? <==> exists e <- entries :: GroupOf(e).None?
    ensures r.Some? ==> Consistent(r.value) && |r.value.groups| == |entries|
    ensures r.Some? ==> forall i | 0 <= i < |entries| :: GroupOf(entries[i]) == Some(r.value.groups[i])
  {
    var groups: seq<Group> := [];
    var totalLength := 0;
    for i := 0 to |entries|
      invariant |groups| == i
      invariant forall g <- groups :: g.length >= 1
      invariant totalLength == Below(Lengths(groups), i)
      invariant forall j | 0 <= j < i :: GroupOf(entries[j]) == Some(groups[j])
    {
      var g: Group;
      var e := entries[i];
      match e {
        case Mapped(exposed, listened) =>
          var es := ConvertToPorts(exposed);
          if es.None? { assert GroupOf(e).None?; return None; }
          var ls := ConvertToPorts(listened);
          if ls.None? { assert GroupOf(e).None?; return None; }
          if es.value.1 != ls.value.1 { assert GroupOf(e).None?; return None; }
          g := Group(es.value.0, ls.value.0, es.value.1);
        case Same(ports) =>
          var p := ConvertToPorts(ports);
          if p.None? { assert GroupOf(e).None?; return None; }
          g := Group(p.value.0, p.value.0, p.value.1);
      }
      TotalGrows(groups, g);
      groups := groups + [g];
      totalLength := totalLength + g.length;
    }
    r := Some(PortGetter(groups, totalLength));
  }

  /** `draw` offers port `exposed` outside and `listened` inside, out of group `i`. */
  predicate Offers(m: PortGetter, i: nat, draw: int, exposed: int, listened: int)
    requires Consistent(m)
  {
    && Owns(Lengths(m.groups), i, draw)
    && exposed == m.groups[i].exposedStart + draw - Below(Lengths(m.groups), i)
    && listened == m.groups[i].listenedStart + draw - Below(Lengths(m.groups), i)
  }

  /** `draw` is the random number below the total. The third result is never false. */
  method FetchNext(m: PortGetter, draw: nat) returns (exposed: int, listened: int, ok: bool)
    requires Consistent(m) && draw < m.totalLength
    ensures ok
    ensures exists i: nat :: Offers(m, i, draw, exposed, listened)
  {
    var idxPort: int := draw;
    for i := 0 to |m.groups|
      invariant idxPort >= 0
      invariant idxPort + Below(Lengths(m.groups), i) == draw
    {
      var g := m.groups[i];
      if idxPort >= g.length {
        idxPort := idxPort - g.length;
      } else {
        exposed, listened := g.exposedStart + idxPort, g.listenedStart + idxPort;
        assert Offers(m, i, draw, exposed, listened);
        return exposed, listened, true;
      }
    }
    assert false;
    return 0, 0, false;
  }

  /** The draw that offers a port of group `i`. */
  function DrawOf(m: PortGetter, i: nat, exposed: int): int
    requires Consistent(m) && i < |m.groups|
  {
    Below(Lengths(m.groups), i) + exposed - m.groups[i].exposedStart
  }

  /** Draws and places in groups correspond one to one: a draw offers a pair of ports out of a group
      iff the two ports are at the same place in that group's two lists and the draw is the one for
      that place, and that draw is below the total. */
  lemma OffersIff(m: PortGetter, i: nat, draw: int, exposed: int, listened: int)
    requires Consistent(m) && i < |m.groups|
    ensures Offers(m, i, draw, exposed, listened)
       <==> && InGroup(m.groups[i], exposed)
            && draw == DrawOf(m, i, exposed)
            && listened == m.groups[i].listenedStart + exposed - m.groups[i].exposedStart
    ensures Offers(m, i, draw, exposed, listened) ==> 0 <= draw < m.totalLength
  {
    BelowGrows(Lengths(m.groups), i + 1, |m.groups|);
  }

  /** Every configured port can be drawn, and nothing else. */
  lemma OfferedIff(m: PortGetter, exposed: int)
    requires Consistent(m)
    ensures (exists i: nat, draw: nat, listened: int ::
               draw < m.totalLength && Offers(m, i, draw, exposed, listened))
       <==> exists g <- m.groups :: InGroup(g, exposed)
  {
    hide Below, Lengths, Consistent;
    if i: nat, draw: nat, listened: int :| draw < m.totalLength && Offers(m, i, draw, exposed, listened) {
      OffersIff(m, i, draw, exposed, listened);
      assert m.groups[i] in m.groups;
    }
    if g :| g in m.groups && InGroup(g, exposed) {
      var i: nat :| i < |m.groups| && m.groups[i] == g;
      var listened := g.listenedStart + exposed - g.exposedStart;
      OffersIff(m, i, DrawOf(m, i, exposed), exposed, listened);
    }
  }

  /** A port that only one group holds is offered by one draw only, with one port inside. */
  lemma OfferedOnce(m: PortGetter, exposed: int, i: nat, draw: nat, inside: int, j: nat, other: nat, inside': int)
    requires Consistent(m)
    requires Offers(m, i, draw, exposed, inside) && Offers(m, j, other, exposed, inside')
    requires forall a: nat, b: nat | a < |m.groups| && b < |m.groups| ::
               InGroup(m.groups[a], exposed) && InGroup(m.groups[b], exposed) ==> a == b
    ensures draw == other && inside == inside'
  {
    hide Below, Lengths, Consistent;
    OffersIff(m, i, draw, exposed, inside);
    OffersIff(m, j, other, exposed, inside');
  }

  /** A port is offered by some draw iff the configuration lists it. */
  lemma OfferedIffListed(entries: seq<Entry>, m: PortGetter, exposed: int)
    requires Consistent(m) && |m.groups| == |entries|
    requires forall i | 0 <= i < |entries| :: GroupOf(entries[i]) == Some(m.groups[i])
    ensures (exists i: nat, draw: nat, listened: int ::
               draw < m.totalLength && Offers(m, i, draw, exposed, listened))
       <==> exists e <- entries :: Lists(Outside(e), exposed)
  {
    hide Consistent, Offers, Lists, GroupOf;
    OfferedIff(m, exposed);
    if g :| g in m.groups && InGroup(g, exposed) {
      var i :| 0 <= i < |m.groups| && m.groups[i] == g;
      GroupPorts(entries[i], exposed);
      assert entries[i] in entries;
    }
    if e :| e in entries && Lists(Outside(e), exposed) {
      var i :| 0 <= i < |entries| && entries[i] == e;
      GroupPorts(e, exposed);
      assert m.groups[i] in m.groups;
    }
  }
}
