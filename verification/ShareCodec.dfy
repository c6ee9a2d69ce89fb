/** 139 share mode: object ids that carry references into shares. */
module ShareCodec {
  import opened Results

  type Byte = b: int | 0 <= b < 256
  type Str = seq<Byte>

  /** A node of a share: the share link, its password, and the node inside it. */
  datatype ShareRef = ShareRef(link: Str, password: Str, node: Str)

  const PIPE: Byte := 124
  const PERCENT: Byte := 37
  /** The bytes of "shares:". */
  const MULTI_PREFIX: Str := [115, 104, 97, 114, 101, 115, 58]

  // ---------- Path-segment escaping (`url.PathEscape`, `url.PathUnescape`) ----------

  predicate IsAlphaNumeric(b: Byte) {
    48 <= b <= 57 || 65 <= b <= 90 || 97 <= b <= 122
  }

  /** The bytes a path segment keeps: letters, digits and `-_.~$&+:=@`. */
  predicate KeptAsIs(b: Byte) {
    IsAlphaNumeric(b) || b in {45, 95, 46, 126, 36, 38, 43, 58, 61, 64}
  }

  function HexDigit(n: int): Byte
    requires 0 <= n < 16
  {
    if n < 10 then 48 + n else 55 + n
  }

  function HexValue(b: Byte): Option<int> {
    if 48 <= b <= 57 then Some(b - 48)
    else if 65 <= b <= 70 then Some(b - 55)
    else if 97 <= b <= 102 then Some(b - 87)
    else None
  }

  function EscapeByte(b: Byte): Str {
    if KeptAsIs(b) then [b] else [PERCENT, HexDigit(b / 16), HexDigit(b % 16)]
  }

  function Escape(s: Str): Str {
    if s == [] then [] else EscapeByte(s[0]) + Escape(s[1..])
  }

  /** Fails on a percent sign that two hex digits do not follow. */
  function Unescape(s: Str): Option<Str> {
    if s == [] then Some([])
    else if s[0] != PERCENT then Prepend(s[0], Unescape(s[1..]))
    else if |s| < 3 || HexValue(s[1]).None? || HexValue(s[2]).None? then None
    else Prepend(HexValue(s[1]).value * 16 + HexValue(s[2]).value, Unescape(s[3..]))
  }

  function Prepend(b: Byte, rest: Option<Str>): Option<Str> {
    match rest
    case None => None
    case Some(t) => Some([b] + t)
  }

  /** Escaping is undone by unescaping, and never produces the field separator. */
  lemma {:induction false} EscapeInverts(s: Str)
    ensures Unescape(Escape(s)) == Some(s)
    ensures PIPE !in Escape(s)
  {
    if s != [] {
      EscapeInverts(s[1..]);
      var e, rest := EscapeByte(s[0]), Escape(s[1..]);
      if KeptAsIs(s[0]) {
        assert (e + rest)[1..] == rest;
      } else {
        assert (e + rest)[3..] == rest;
        assert s[0] / 16 * 16 + s[0] % 16 == s[0];
      }
      assert s == [s[0]] + s[1..];
    }
  }

  /** What a path segment may hold besides percent-encodings, `pchar` in section 3.3 of RFC 3986: of the
      visible ASCII characters all but quotation mark, backquote and `#%/<>?[\]^{|}`. */
  predicate IsPchar(b: Byte) {
    33 <= b <= 126 && b !in {34, 35, 37, 47, 60, 62, 63, 91, 92, 93, 94, 96, 123, 124, 125}
  }

  /** Of those, escaping keeps all but `!'()*,;`; a byte that it does not keep becomes a percent sign and
      two digits in upper case, the high half first. */
  lemma EscapedExactly(b: Byte)
    ensures EscapeByte(b)
         == if IsPchar(b) && b !in {33, 39, 40, 41, 42, 44, 59} then [b]
            else [PERCENT, UPPER[b / 16], UPPER[b % 16]]
  {
  }

  lemma {:induction false} EscapeIsSegment(s: Str)
    ensures forall b <- Escape(s) :: IsPchar(b) || b == PERCENT
  {
    if s != [] {
      EscapeIsSegment(s[1..]);
      EscapedExactly(s[0]);
    }
  }

  // ---------- What unescaping accepts ----------

  /** The hexadecimal digits in order, in upper and in lower case. */
  const UPPER: Str := [48, 49, 50, 51, 52, 53, 54, 55, 56, 57, 65, 66, 67, 68, 69, 70]
  const LOWER: Str := [48, 49, 50, 51, 52, 53, 54, 55, 56, 57, 97, 98, 99, 100, 101, 102]

  predicate IsDigitOf(c: Byte, n: int)
    requires 0 <= n < 16
  {
    c == UPPER[n] || c == LOWER[n]
  }

  /** The two ways to write a byte: as itself, or as a percent sign and two digits of either case. */
  predicate Spells(piece: Str, b: Byte) {
    || (piece == [b] && b != PERCENT)
    || (|piece| == 3 && piece[0] == PERCENT && IsDigitOf(piece[1], b / 16) && IsDigitOf(piece[2], b % 16))
  }

  function Concat(pieces: seq<Str>): Str {
    if pieces == [] then [] else pieces[0] + Concat(pieces[1..])
  }

  lemma DigitRead(c: Byte, n: int)
    requires 0 <= n < 16
    ensures HexValue(c) == Some(n) <==> IsDigitOf(c, n)
  {
  }

  /** However its bytes are written, a text is read back. */
  lemma {:induction false} UnescapeSpelled(pieces: seq<Str>, s: Str)
    requires |pieces| == |s| && forall i | 0 <= i < |s| :: Spells(pieces[i], s[i])
    ensures Unescape(Concat(pieces)) == Some(s)
  {
    if s != [] {
      hide HexValue, IsDigitOf;
      UnescapeSpelled(pieces[1..], s[1..]);
      var piece, rest := pieces[0], Concat(pieces[1..]);
      assert Spells(piece, s[0]);
      assert (piece + rest)[|piece|..] == rest;
      assert s == [s[0]] + s[1..];
      if piece != [s[0]] || s[0] == PERCENT {
        DigitRead(piece[1], s[0] / 16);
        DigitRead(piece[2], s[0] % 16);
      }
    }
  }

  predicate IsHexDigit(b: Byte) { b in UPPER || b in LOWER }

  lemma DigitIff(b: Byte)
    ensures HexValue(b).Some? <==> IsHexDigit(b)
    ensures !IsHexDigit(PERCENT)
  {
  }

  /** A percent sign that two digits do not follow. */
  predicate Dangles(s: Str, i: nat)
    requires i < |s|
  {
    s[i] == PERCENT && !(i + 2 < |s| && IsHexDigit(s[i + 1]) && IsHexDigit(s[i + 2]))
  }

  lemma DanglesLater(s: Str, n: nat)
    requires n <= |s| && forall i: nat | i < n :: !Dangles(s, i)
    ensures (exists i: nat :: i < |s| && Dangles(s, i)) <==> exists i: nat :: i < |s[n..]| && Dangles(s[n..], i)
  {
    forall i: nat | i < |s[n..]| ensures Dangles(s[n..], i) <==> Dangles(s, n + i) {
    }
    if i: nat :| i < |s| && Dangles(s, i) {
      assert Dangles(s[n..], i - n);
    }
  }

  /** Unescaping fails iff two digits do not follow some percent sign. */
  lemma {:induction false} UnescapeFailsIff(s: Str)
    ensures Unescape(s).None? <==> exists i: nat :: i < |s| && Dangles(s, i)
  {
    hide HexValue, IsHexDigit;
    DigitIff(PERCENT);
    if |s| >= 3 {
      DigitIff(s[1]);
      DigitIff(s[2]);
    }
    if s != [] && !Dangles(s, 0) {
      var n := if s[0] == PERCENT then 3 else 1;
      DanglesLater(s, n);
      UnescapeFailsIff(s[n..]);
    }
  }

  /** A text of bytes that escaping keeps starts the escaped form iff it starts the original. */
  lemma {:induction false} EscapeKeepsPrefix(s: Str, prefix: Str)
    requires forall b <- prefix :: KeptAsIs(b)
    ensures prefix <= Escape(s) <==> prefix <= s
  {
    if s != [] && prefix != [] {
      var e, rest := EscapeByte(s[0]), Escape(s[1..]);
      EscapeKeepsPrefix(s[1..], prefix[1..]);
      if KeptAsIs(s[0]) {
        assert prefix <= e + rest <==> prefix[0] == s[0] && prefix[1..] <= rest by {
          assert (e + rest)[1..] == rest;
        }
        assert prefix <= s <==> prefix[0] == s[0] && prefix[1..] <= s[1..];
      } else {
        assert KeptAsIs(prefix[0]);
        assert (e + rest)[0] == PERCENT;
      }
    }
  }

  // ---------- One reference ----------

  /** The text before and after the first separator. */
  function Cut(s: Str): (r: Option<(Str, Str)>)
    ensures r.None? <==> PIPE !in s
  {
    if s == [] then None
    else if s[0] == PIPE then Some(([], s[1..]))
    else
      match Cut(s[1..])
      case None => None
      case Some((before, after)) => Some(([s[0]] + before, after))
  }

  lemma {:induction false} CutAt(before: Str, after: Str)
    requires PIPE !in before
    ensures Cut(before + [PIPE] + after) == Some((before, after))
  {
    var s := before + [PIPE] + after;
    if before == [] {
      assert s[1..] == after;
    } else {
      CutAt(before[1..], after);
      assert s[1..] == before[1..] + [PIPE] + after;
      assert before == [before[0]] + before[1..];
    }
  }

  lemma {:induction false} CutJoins(s: Str)
    requires Cut(s).Some?
    ensures var (before, after) := Cut(s).value; s == before + [PIPE] + after && PIPE !in before
  {
    if s[0] == PIPE {
      assert s == [] + [PIPE] + s[1..];
    } else {
      CutJoins(s[1..]);
      assert s == [s[0]] + s[1..];
    }
  }

  function EncodeRef(ref: ShareRef): Str {
    Escape(ref.link) + [PIPE] + (Escape(ref.password) + [PIPE] + Escape(ref.node))
  }

  function DecodeRef(id: Str): Option<ShareRef> {
    match Cut(id)
    case None => None
    case Some((first, rest)) =>
      match Cut(rest)
      case None => None
      case Some((second, third)) =>
        var link, password, node := Unescape(first), Unescape(second), Unescape(third);
        if link.None? || password.None? || node.None? || link.value == [] then None
        else Some(ShareRef(link.value, password.value, node.value))
  }

  /** The text is these three fields between separators; only the last may hold a separator. */
  predicate Fields(id: Str, first: Str, second: Str, third: Str) {
    PIPE !in first && PIPE !in second && id == first + [PIPE] + (second + [PIPE] + third)
  }

  /** A text reads as a reference iff it is the link, which is not empty, the password and the node, each
      escaped in some way, between separators. */
  lemma DecodesIff(id: Str, ref: ShareRef)
    ensures DecodeRef(id) == Some(ref)
       <==> ref.link != [] && exists first, second, third ::
              && Fields(id, first, second, third)
              && Unescape(first) == Some(ref.link) && Unescape(second) == Some(ref.password)
              && Unescape(third) == Some(ref.node)
  {
    hide Unescape, Cut;
    if DecodeRef(id) == Some(ref) {
      CutJoins(id);
      var (first, rest) := Cut(id).value;
      CutJoins(rest);
      var (second, third) := Cut(rest).value;
      assert Fields(id, first, second, third);
    }
    forall first, second, third | Fields(id, first, second, third)
      ensures Cut(id) == Some((first, second + [PIPE] + third))
      ensures Cut(second + [PIPE] + third) == Some((second, third))
    {
      CutAt(first, second + [PIPE] + third);
      CutAt(second, third);
    }
  }

  lemma RefRoundTrip(ref: ShareRef)
    ensures DecodeRef(EncodeRef(ref)) == if ref.link == [] then None else Some(ref)
  {
    EscapeInverts(ref.link);
    EscapeInverts(ref.password);
    EscapeInverts(ref.node);
    CutAt(Escape(ref.link), Escape(ref.password) + [PIPE] + Escape(ref.node));
    CutAt(Escape(ref.password), Escape(ref.node));
  }

  // ---------- A list of references ----------

  /** JSON followed by unpadded URL-safe base64, and back. */
  datatype Wire = Wire(encode: seq<ShareRef> -> Str, decode: Str -> Option<seq<ShareRef>>)

  predicate IsTail(b: Byte) { 128 <= b < 192 }

  /** Valid UTF-8 as section 4 of RFC 3629 defines it. */
  predicate IsUtf8(s: Str) {
    if s == [] then true
    else if s[0] < 128 then IsUtf8(s[1..])
    else if 194 <= s[0] < 224 then |s| >= 2 && IsTail(s[1]) && IsUtf8(s[2..])
    else if 224 <= s[0] < 240 then
      && |s| >= 3 && IsTail(s[1]) && IsTail(s[2])
      && (s[0] == 224 ==> s[1] >= 160) && (s[0] == 237 ==> s[1] < 160) && IsUtf8(s[3..])
    else if 240 <= s[0] < 245 then
      && |s| >= 4 && IsTail(s[1]) && IsTail(s[2]) && IsTail(s[3])
      && (s[0] == 240 ==> s[1] >= 144) && (s[0] == 244 ==> s[1] < 144) && IsUtf8(s[4..])
    else false
  }

  /** A Unicode character: a code point that is no surrogate. */
  predicate IsScalar(c: int) {
    0 <= c < 0xD800 || 0xE000 <= c < 0x11_0000
  }

  /** Its octets, in the table of section 3 of RFC 3629. */
  function Octets(c: int): (r: Str)
    requires IsScalar(c)
    ensures r != []
  {
    if c < 0x80 then [c]
    else if c < 0x800 then [192 + c / 64, 128 + c % 64]
    else if c < 0x1_0000 then [224 + c / 4096, 128 + c / 64 % 64, 128 + c % 64]
    else [240 + c / 262144, 128 + c / 4096 % 64, 128 + c / 64 % 64, 128 + c % 64]
  }

  predicate AllScalars(cs: seq<int>) {
    forall c <- cs :: IsScalar(c)
  }

  function OctetsOf(cs: seq<int>): Str
    requires AllScalars(cs)
  {
    if cs == [] then [] else Octets(cs[0]) + OctetsOf(cs[1..])
  }

  lemma OctetsThen(c: int, rest: Str)
    requires IsScalar(c)
    ensures IsUtf8(Octets(c) + rest) <==> IsUtf8(rest)
  {
    assert (Octets(c) + rest)[|Octets(c)|..] == rest;
  }

  /** Six more bits, from an octet that is not the first. */
  function Longer(bits: int, octet: int): int { bits * 64 + (octet - 128) }

  function Less(octet: int, mark: int): int { octet - mark }

  lemma Shorter(bits: int, octet: int)
    requires bits >= 0 && 128 <= octet < 192
    ensures Longer(bits, octet) / 64 == bits && 128 + Longer(bits, octet) % 64 == octet
  {
  }

  /** The character that the first octets stand for. */
  function FirstScalar(s: Str): int
    requires s != [] && IsUtf8(s)
  {
    if s[0] < 128 then s[0]
    else if s[0] < 224 then Longer(Less(s[0], 192), s[1])
    else if s[0] < 240 then Longer(Longer(Less(s[0], 224), s[1]), s[2])
    else Longer(Longer(Longer(Less(s[0], 240), s[1]), s[2]), s[3])
  }

  lemma OctetsFirst(s: Str)
    requires s != [] && IsUtf8(s)
    ensures IsScalar(FirstScalar(s))
    ensures Octets(FirstScalar(s)) <= s && IsUtf8(s[|Octets(FirstScalar(s))|..])
  {
    if s[0] >= 240 {
      OctetsOfFour(s[0], s[1], s[2], s[3]);
    } else if s[0] >= 224 {
      OctetsOfThree(s[0], s[1], s[2]);
    } else if s[0] >= 128 {
      Shorter(Less(s[0], 192), s[1]);
    }
  }

  lemma OctetsOfThree(a: Byte, b: Byte, c: Byte)
    requires 224 <= a < 240 && IsTail(b) && IsTail(c)
    requires (a == 224 ==> b >= 160) && (a == 237 ==> b < 160)
    ensures var n := Longer(Longer(Less(a, 224), b), c); 0x800 <= n < 0x1_0000 && IsScalar(n) && Octets(n) == [a, b, c]
  {
    var h := Longer(Less(a, 224), b);
    Shorter(Less(a, 224), b);
    Shorter(h, c);
    var n := Longer(h, c);
    assert n / 4096 == n / 64 / 64;
  }

  lemma OctetsOfFour(a: Byte, b: Byte, c: Byte, d: Byte)
    requires 240 <= a < 245 && IsTail(b) && IsTail(c) && IsTail(d)
    requires (a == 240 ==> b >= 144) && (a == 244 ==> b < 144)
    ensures var n := Longer(Longer(Longer(Less(a, 240), b), c), d);
            0x1_0000 <= n < 0x11_0000 && Octets(n) == [a, b, c, d]
  {
    var g := Longer(Less(a, 240), b);
    var h := Longer(g, c);
    Shorter(Less(a, 240), b);
    Shorter(g, c);
    Shorter(h, d);
    var n := Longer(h, d);
    assert n / 4096 == n / 64 / 64 && n / 262144 == n / 64 / 64 / 64;
  }

  /** Text is what Unicode characters are encoded as. */
  lemma {:induction false} TextIff(s: Str)
    ensures IsUtf8(s) <==> exists cs :: AllScalars(cs) && OctetsOf(cs) == s
  {
    if IsUtf8(s) {
      var cs := CharactersOf(s);
    }
    forall cs | AllScalars(cs) && OctetsOf(cs) == s ensures IsUtf8(s) {
      EncodedIsText(cs);
    }
  }

  lemma {:induction false} CharactersOf(s: Str) returns (cs: seq<int>)
    requires IsUtf8(s)
    ensures AllScalars(cs) && OctetsOf(cs) == s
  {
    cs := [];
    if s != [] {
      hide IsUtf8, FirstScalar, Octets;
      OctetsFirst(s);
      var c := FirstScalar(s);
      var rest := CharactersOf(s[|Octets(c)|..]);
      cs := [c] + rest;
      assert cs[1..] == rest;
    }
  }

  lemma {:induction false} EncodedIsText(cs: seq<int>)
    requires AllScalars(cs)
    ensures IsUtf8(OctetsOf(cs))
  {
    if cs != [] {
      hide Octets;
      EncodedIsText(cs[1..]);
      OctetsThen(cs[0], OctetsOf(cs[1..]));
    }
  }

  /** The fields are text, as everything is that was read from JSON. */
  predicate IsText(ref: ShareRef) {
    IsUtf8(ref.link) && IsUtf8(ref.password) && IsUtf8(ref.node)
  }

  predicate AllText(refs: seq<ShareRef>) {
    forall r <- refs :: IsText(r)
  }

  /** What is assumed of the JSON and base64 libraries: they invert each other on lists of
      references whose fields are text, and base64 rejects a byte outside its alphabet. */
  ghost predicate Faithful(wire: Wire) {
    && (forall refs :: AllText(refs) ==> wire.decode(wire.encode(refs)) == Some(refs))
    && (forall s :: PIPE in s ==> wire.decode(s) == None)
  }

  function EncodeRefs(wire: Wire, refs: seq<ShareRef>): Str {
    if |refs| == 1 then EncodeRef(refs[0]) else MULTI_PREFIX + wire.encode(refs)
  }

  function DecodeRefs(wire: Wire, id: Str): Option<seq<ShareRef>> {
    if !(MULTI_PREFIX <= id) then
      match DecodeRef(id)
      case None => None
      case Some(ref) => Some([ref])
    else
      match wire.decode(id[|MULTI_PREFIX|..])
      case None => None
      case Some(refs) => if refs == [] then None else Some(refs)
  }

  /** The references whose id can be read back on its own. */
  predicate Readable(ref: ShareRef) {
    ref.link != [] && !(MULTI_PREFIX <= ref.link)
  }

  /** Exactly when a list of references of text survives its id: always for two or more; for one, iff
      its link is not empty and does not start like a list; never for none.  When it does
      not survive, decoding fails: it never yields other references. */
  lemma RefsRoundTrip(wire: Wire, refs: seq<ShareRef>)
    requires Faithful(wire) && (|refs| >= 2 ==> AllText(refs))
    ensures DecodeRefs(wire, EncodeRefs(wire, refs))
         == if |refs| >= 2 || (|refs| == 1 && Readable(refs[0])) then Some(refs) else None
  {
    hide Escape, Unescape, Cut, DecodeRef, KeptAsIs;
    var id := EncodeRefs(wire, refs);
    if |refs| == 1 {
      var ref := refs[0];
      var link := Escape(ref.link);
      RefRoundTrip(ref);
      EscapeInverts(ref.link);
      PrefixKept(ref.link);
      PrefixOfFirstField(link, Escape(ref.password) + [PIPE] + Escape(ref.node));
      if MULTI_PREFIX <= link {
        var tail := id[|MULTI_PREFIX|..];
        assert tail[|link| - |MULTI_PREFIX|] == id[|link|] == PIPE;
        assert PIPE in tail;
      }
      assert refs == [ref];
    } else {
      assert id[|MULTI_PREFIX|..] == wire.encode(refs);
    }
  }

  lemma PrefixKept(link: Str)
    ensures MULTI_PREFIX <= Escape(link) <==> MULTI_PREFIX <= link
  {
    EscapeKeepsPrefix(link, MULTI_PREFIX);
  }

  lemma PrefixOfFirstField(first: Str, rest: Str)
    requires PIPE !in first
    ensures MULTI_PREFIX <= first + [PIPE] + rest <==> MULTI_PREFIX <= first
  {
    var s := first + [PIPE] + rest;
    assert s[|first|] == PIPE;
    assert |first| < |MULTI_PREFIX| ==> MULTI_PREFIX[|first|] != s[|first|];
  }
}
