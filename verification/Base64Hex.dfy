/** 189 driver: turning base64 text into hexadecimal text, character by character. */
module Base64Hex {
  import opened Results

  // ---------- The two alphabets ----------

  /** The base64 alphabet of section 4 of RFC 4648: A-Z, a-z, 0-9, + and /. */
  function Symbol(v: int): char
    requires 0 <= v < 64
  {
    if v < 26 then 'A' + v as char
    else if v < 52 then 'a' + (v - 26) as char
    else if v < 62 then '0' + (v - 52) as char
    else if v == 62 then '+' else '/'
  }

  /** The place of a character in the table `b64map`, whose v-th character is `Symbol(v)`,
      searched from place `v` on; -1 if it is not there. */
  function IndexFrom(c: char, v: nat): (i: int)
    requires v <= 64
    ensures i == -1 || (v <= i < 64 && Symbol(i) == c)
    ensures i == -1 ==> forall k | v <= k < 64 :: Symbol(k) != c
    decreases 64 - v
  {
    if v == 64 then -1 else if Symbol(v) == c then v else IndexFrom(c, v + 1)
  }

  function Index(c: char): int { IndexFrom(c, 0) }

  /** A symbol is found at its own place: no character occurs twice in the table. */
  lemma SymbolFound(v: int)
    requires 0 <= v < 64
    ensures Index(Symbol(v)) == v && Symbol(v) != '='
  {
    assert Symbol(Index(Symbol(v))) == Symbol(v);
  }

  /** The a-th character of the table `BI_RM`: the digits, then the lower-case letters. */
  function Digit(a: int): char
    requires 0 <= a < 36
  {
    if a < 10 then '0' + a as char else 'a' + (a - 10) as char
  }

  const B64MAP := CAPITALS + SMALL + "0123456789+/"
  const CAPITALS := "ABCDEFGHIJKLMNOPQRSTUVWXYZ"
  const SMALL := "abcdefghijklmnopqrstuvwxyz"
  const BI_RM := "0123456789" + SMALL

  lemma LettersAre()
    ensures |CAPITALS| == |SMALL| == 26
    ensures forall i | 0 <= i < 26 :: CAPITALS[i] == 'A' + i as char && SMALL[i] == 'a' + i as char
  {
  }

  /** The two tables, as the program spells them. */
  lemma TablesAre()
    ensures |B64MAP| == 64 && forall v | 0 <= v < 64 :: B64MAP[v] == Symbol(v)
    ensures |BI_RM| == 36 && forall a | 0 <= a < 36 :: BI_RM[a] == Digit(a)
  {
    LettersAre();
  }

  // ---------- The transducer ----------

  /** `c << 2 | low` for `c` below 4 and `low` below 4, or -1 for a character not found. */
  function OrLow(c: int, low: int): int {
    if low < 0 then -1 else c * 4 + low
  }

  /** On machine bits: nothing overlaps, so the or is the sum; and an or with all ones is all ones. */
  lemma OrIsSum(c: bv8, low: bv8)
    requires c < 4 && (low < 4 || low == 255)
    ensures (c << 2) | low == if low == 255 then 255 else c * 4 + low
  {
  }

  /** What is kept between characters: the place in the group of four, and the bits of the last
      character not written yet. */
  datatype Carry = Carry(e: nat, c: int)

  /** The digits a character completes, as indices into the table, and the new carry.  The
      shifts and masks are floor division and remainder; -1 shifted stays -1. */
  function Next(k: Carry, m: char): (seq<int>, Carry) {
    if m == '=' then ([], k) else Take(k, Index(m))
  }

  function Take(k: Carry, v: int): (seq<int>, Carry) {
    if k.e == 0 then ([v / 4], Carry(1, v % 4))
    else if k.e == 1 then ([OrLow(k.c, v / 16)], Carry(2, v % 16))
    else if k.e == 2 then ([k.c, v / 4], Carry(3, v % 4))
    else ([OrLow(k.c, v / 16), v % 16], Carry(0, k.c))
  }

  /** The digit for an index; an index outside the table is a crash. */
  function Int2Char(a: int): Option<char> {
    if 0 <= a < 36 then Some(Digit(a)) else None
  }

  function Cat(a: Option<string>, b: Option<string>): Option<string> {
    if a.None? || b.None? then None else Some(a.value + b.value)
  }

  function Digits(indices: seq<int>): Option<string> {
    if indices == [] then Some("")
    else
      var first := Int2Char(indices[0]);
      Cat(if first.None? then None else Some([first.value]), Digits(indices[1..]))
  }

  /** All indices written for a text, including those for a lone character at the end. */
  function Indices(a: string, k: Carry): seq<int> {
    if a == "" then if k.e == 1 then [k.c * 4] else []
    else
      var (out, k') := Next(k, a[0]);
      out + Indices(a[1..], k')
  }

  lemma CatAssociates(a: Option<string>, b: Option<string>, c: Option<string>)
    ensures Cat(Cat(a, b), c) == Cat(a, Cat(b, c))
  {
    if a.Some? && b.Some? && c.Some? {
      assert a.value + b.value + c.value == a.value + (b.value + c.value);
    }
  }

  lemma CatEmpty(a: Option<string>)
    ensures Cat(Some(""), a) == a && Cat(a, Some("")) == a
  {
    if a.Some? {
      assert "" + a.value == a.value && a.value + "" == a.value;
    }
  }

  lemma {:induction false} DigitsConcat(a: seq<int>, b: seq<int>)
    ensures Digits(a + b) == Cat(Digits(a), Digits(b))
  {
    if a == [] {
      assert a + b == b;
      CatEmpty(Digits(b));
    } else {
      assert (a + b)[1..] == a[1..] + b;
      DigitsConcat(a[1..], b);
      var first := Int2Char(a[0]);
      CatAssociates(if first.None? then None else Some([first.value]), Digits(a[1..]), Digits(b));
    }
  }

  /** The loop over the text.  The result is the digits of all indices, or a crash (`None`) if
      one of them is outside the table. */
  method B64ToHex(a: string) returns (r: Option<string>)
    ensures r == Digits(Indices(a, Carry(0, 0)))
  {
    hide Next, Digits;
    var d := "";
    var k := Carry(0, 0);
    assert a[0..] == a;
    CatEmpty(Digits(Indices(a, k)));
    for i := 0 to |a|
      invariant Digits(Indices(a, Carry(0, 0))) == Cat(Some(d), Digits(Indices(a[i..], k)))
    {
      assert a[i..][0] == a[i] && a[i..][1..] == a[i + 1..];
      var (out, k') := Next(k, a[i]);
      DigitsConcat(out, Indices(a[i + 1..], k'));
      var digits := Digits(out);
      if digits.None? {
        return None;
      }
      CatAssociates(Some(d), digits, Digits(Indices(a[i + 1..], k')));
      d, k := d + digits.value, k';
    }
    FlushDigits(k);
    CatEmpty(Some(d));
    assert a[|a|..] == "";
    if k.e == 1 {
      var digit := Int2Char(k.c * 4);
      if digit.None? {
        return None;
      }
      d := d + [digit.value];
    }
    r := Some(d);
  }

  /** The digit written after the end, if one is due. */
  lemma FlushDigits(k: Carry)
    ensures Digits(Indices("", k))
         == if k.e != 1 then Some("")
            else if Int2Char(k.c * 4).None? then None else Some([Int2Char(k.c * 4).value])
  {
    if k.e == 1 && Int2Char(k.c * 4).Some? {
      CatEmpty(Some([Int2Char(k.c * 4).value]));
      assert [k.c * 4][1..] == [];
    }
  }

  // ---------- When it crashes ----------

  /** The bits kept between characters always fit. */
  predicate CarryFits(k: Carry) {
    k.e <= 3 && (k.e == 1 || k.e == 3 ==> 0 <= k.c < 4) && (k.e == 2 ==> 0 <= k.c < 16)
  }

  lemma {:induction false} DigitsDefined(indices: seq<int>)
    ensures Digits(indices).Some? <==> forall i | 0 <= i < |indices| :: 0 <= indices[i] < 36
  {
    if indices != [] {
      DigitsDefined(indices[1..]);
      assert indices == [indices[0]] + indices[1..];
    }
  }

  /** A known character writes indices within 0..15 only; an unknown one always writes -1. */
  lemma NextInRange(k: Carry, m: char)
    requires CarryFits(k)
    ensures CarryFits(Next(k, m).1)
    ensures m == '=' || Index(m) >= 0 ==> forall x <- Next(k, m).0 :: 0 <= x < 16
    ensures m != '=' && Index(m) < 0 ==> -1 in Next(k, m).0
  {
  }

  lemma {:induction false} IndicesInRange(a: string, k: Carry)
    requires CarryFits(k)
    ensures (forall m <- a :: m == '=' || Index(m) >= 0) ==> forall x <- Indices(a, k) :: 0 <= x < 16
    ensures (exists m <- a :: m != '=' && Index(m) < 0) ==> -1 in Indices(a, k)
  {
    if a != "" {
      NextInRange(k, a[0]);
      IndicesInRange(a[1..], Next(k, a[0]).1);
      assert a == [a[0]] + a[1..];
    }
  }

  /** For any text: the conversion completes iff every character is a base64 symbol or `=`, and
      then every digit index it uses is within 0..15. */
  lemma CompletesIff(a: string)
    ensures Digits(Indices(a, Carry(0, 0))).Some? <==> forall m <- a :: m == '=' || Index(m) >= 0
    ensures Digits(Indices(a, Carry(0, 0))).Some? ==> forall x <- Indices(a, Carry(0, 0)) :: 0 <= x < 16
  {
    var all := Indices(a, Carry(0, 0));
    IndicesInRange(a, Carry(0, 0));
    DigitsDefined(all);
    if exists m <- a :: m != '=' && Index(m) < 0 {
      var i :| 0 <= i < |all| && all[i] == -1;
    } else {
      forall i | 0 <= i < |all| ensures 0 <= all[i] < 36 {
        assert all[i] in all;
      }
    }
  }

  // ---------- What any accepted text gives ----------

  /** The places in the table of all characters but `=`. */
  function Values(a: string): seq<int> {
    if a == "" then [] else (if a[0] == '=' then [] else [Index(a[0])]) + Values(a[1..])
  }

  /** The lowest `k` half bytes of a number, highest first. */
  function Halves(n: int, k: nat): seq<int>
    decreases k
  {
    if k == 0 then [] else Halves(n / 16, k - 1) + [n % 16]
  }

  /** Four symbols make 24 bits.  Of three or two symbols at the end the whole bytes count; one symbol at the
      end is filled up to a byte. */
  function Bytes(v: seq<int>): seq<int> {
    if v == [] then []
    else if |v| == 1 then Halves(v[0] * 4, 2)
    else if |v| == 2 then Halves((v[0] * 64 + v[1]) / 16, 2)
    else if |v| == 3 then Halves(((v[0] * 64 + v[1]) * 64 + v[2]) / 4, 4)
    else Halves(((v[0] * 64 + v[1]) * 64 + v[2]) * 64 + v[3], 6) + Bytes(v[4..])
  }

  /** The indices written for places in the table. */
  function Written(v: seq<int>, k: Carry): seq<int> {
    if v == [] then if k.e == 1 then [k.c * 4] else [] else Take(k, v[0]).0 + Written(v[1..], Take(k, v[0]).1)
  }

  lemma {:induction false} WrittenForText(a: string, k: Carry)
    ensures Indices(a, k) == Written(Values(a), k)
  {
    hide Take, Index;
    if a != "" {
      if a[0] == '=' {
        WrittenForText(a[1..], k);
        assert [] + Values(a[1..]) == Values(a[1..]);
        assert [] + Indices(a[1..], k) == Indices(a[1..], k);
      } else {
        WrittenForText(a[1..], Take(k, Index(a[0])).1);
        assert ([Index(a[0])] + Values(a[1..]))[1..] == Values(a[1..]);
      }
    }
  }

  lemma OneMoreHalf(n: int, low: int, k: nat)
    requires 0 <= low < 16
    ensures Halves(n * 16 + low, k + 1) == Halves(n, k) + [low]
  {
  }

  lemma OneHalf(n: int)
    requires 0 <= n < 16
    ensures Halves(n, 1) == [n]
  {
    assert Halves(n / 16, 0) == [];
  }

  predicate Sixes(v: seq<int>) {
    forall i | 0 <= i < |v| :: 0 <= v[i] < 64
  }

  lemma TwoHalves(a: int, b: int)
    requires 0 <= a < 64 && 0 <= b < 64
    ensures Halves(a * 4 + b / 16, 2) == [a / 4, a % 4 * 4 + b / 16]
  {
    hide Halves;
    OneHalf(a / 4);
    OneMoreHalf(a / 4, a % 4 * 4 + b / 16, 1);
  }

  lemma FourHalves(a: int, b: int, c: int)
    requires 0 <= a < 64 && 0 <= b < 64 && 0 <= c < 64
    ensures Halves((a * 64 + b) * 16 + c / 4, 4) == [a / 4, a % 4 * 4 + b / 16, b % 16, c / 4]
  {
    hide Halves;
    TwoHalves(a, b);
    OneMoreHalf(a * 4 + b / 16, b % 16, 2);
    assert (a * 4 + b / 16) * 16 + b % 16 == a * 64 + b;
    OneMoreHalf(a * 64 + b, c / 4, 3);
  }

  lemma SixHalves(a: int, b: int, c: int, d: int)
    requires 0 <= a < 64 && 0 <= b < 64 && 0 <= c < 64 && 0 <= d < 64
    ensures Halves(((a * 64 + b) * 64 + c) * 64 + d, 6)
         == [a / 4, a % 4 * 4 + b / 16, b % 16, c / 4, c % 4 * 4 + d / 16, d % 16]
  {
    hide Halves;
    FourHalves(a, b, c);
    var h := a * 64 + b;
    OneMoreHalf(h * 16 + c / 4, c % 4 * 4 + d / 16, 4);
    assert (h * 16 + c / 4) * 16 + (c % 4 * 4 + d / 16) == (h * 64 + c) * 4 + d / 16;
    OneMoreHalf((h * 64 + c) * 4 + d / 16, d % 16, 5);
    assert ((h * 64 + c) * 4 + d / 16) * 16 + d % 16 == (h * 64 + c) * 64 + d;
  }

  lemma WholeBytes(a: int, b: int, c: int)
    requires 0 <= a < 64 && 0 <= b < 64 && 0 <= c < 64
    ensures a * 4 + 0 / 16 == a * 4 && (a * 64 + b) / 16 == a * 4 + b / 16
    ensures ((a * 64 + b) * 64 + c) / 4 == (a * 64 + b) * 16 + c / 4
  {
  }

  lemma WrittenCons(v: int, rest: seq<int>, k: Carry)
    ensures Written([v] + rest, k) == Take(k, v).0 + Written(rest, Take(k, v).1)
  {
  }

  lemma WrittenGroup(a: int, b: int, c: int, d: int, rest: seq<int>, x: int)
    requires 0 <= a < 64 && 0 <= b < 64 && 0 <= c < 64 && 0 <= d < 64
    ensures Written([a] + ([b] + ([c] + ([d] + rest))), Carry(0, x))
         == [a / 4, a % 4 * 4 + b / 16, b % 16, c / 4, c % 4 * 4 + d / 16, d % 16] + Written(rest, Carry(0, c % 4))
  {
    hide Written;
    WrittenCons(a, [b] + ([c] + ([d] + rest)), Carry(0, x));
    WrittenCons(b, [c] + ([d] + rest), Carry(1, a % 4));
    WrittenCons(c, [d] + rest, Carry(2, b % 16));
    WrittenCons(d, rest, Carry(3, c % 4));
  }

  lemma WrittenOne(a: int, x: int)
    ensures Written([a], Carry(0, x)) == [a / 4, a % 4 * 4]
  {
    hide Written;
    NoneWritten();
    WrittenCons(a, [], Carry(0, x));
    assert [a] + [] == [a];
  }

  lemma WrittenTwo(a: int, b: int, rest: seq<int>, x: int)
    requires 0 <= a < 64 && 0 <= b < 64
    ensures Written([a, b] + rest, Carry(0, x)) == [a / 4, a % 4 * 4 + b / 16] + Written(rest, Carry(2, b % 16))
  {
    hide Written;
    WrittenCons(a, [b] + rest, Carry(0, x));
    WrittenCons(b, rest, Carry(1, a % 4));
    assert [a, b] + rest == [a] + ([b] + rest);
  }

  lemma WrittenThird(c: int, k: int)
    ensures Written([c], Carry(2, k)) == [k, c / 4]
  {
    hide Written;
    NoneWritten();
    WrittenCons(c, [], Carry(2, k));
    assert [c] + [] == [c];
  }

  lemma {:induction false} WrittenAreBytes(v: seq<int>, x: int)
    requires Sixes(v)
    ensures Written(v, Carry(0, x)) == Bytes(v)
    decreases |v|
  {
    hide Halves, Written, Take;
    NoneWritten();
    if |v| >= 4 {
      SixHalves(v[0], v[1], v[2], v[3]);
      WrittenGroup(v[0], v[1], v[2], v[3], v[4..], x);
      WrittenAreBytes(v[4..], v[2] % 4);
      assert v == [v[0]] + ([v[1]] + ([v[2]] + ([v[3]] + v[4..])));
    } else if |v| == 3 {
      FourHalves(v[0], v[1], v[2]);
      WholeBytes(v[0], v[1], v[2]);
      WrittenTwo(v[0], v[1], [v[2]], x);
      WrittenThird(v[2], v[1] % 16);
      assert v == [v[0], v[1]] + [v[2]];
    } else if |v| == 2 {
      TwoHalves(v[0], v[1]);
      WholeBytes(v[0], v[1], 0);
      WrittenTwo(v[0], v[1], [], x);
      assert v == [v[0], v[1]] + [];
    } else if |v| == 1 {
      TwoHalves(v[0], 0);
      WholeBytes(v[0], 0, 0);
      WrittenOne(v[0], x);
      assert v == [v[0]];
    }
  }

  lemma NoneWritten()
    ensures forall k: Carry :: Written([], k) == if k.e == 1 then [k.c * 4] else []
  {
  }

  lemma {:induction false} ValuesFit(a: string)
    requires forall m <- a :: m == '=' || Index(m) >= 0
    ensures Sixes(Values(a))
  {
    if a != "" {
      assert a == [a[0]] + a[1..];
      ValuesFit(a[1..]);
    }
  }

  /** For every text that does not crash it, of any length and with `=` anywhere: the indices are the bits of
      its symbols, four at a time. */
  lemma EveryTextReads(a: string)
    requires forall m <- a :: m == '=' || Index(m) >= 0
    ensures Indices(a, Carry(0, 0)) == Bytes(Values(a))
  {
    WrittenForText(a, Carry(0, 0));
    ValuesFit(a);
    WrittenAreBytes(Values(a), 0);
  }

  // ---------- The standards ----------

  type Byte = b: int | 0 <= b < 256

  /** Base64 as section 4 of RFC 4648 defines it: groups of three bytes as four symbols, a last
      group of one or two bytes padded with `=`. */
  function Encode64(s: seq<Byte>): string {
    if s == [] then ""
    else if |s| == 1 then [Symbol(s[0] / 4), Symbol(s[0] % 4 * 16), '=', '=']
    else if |s| == 2 then
      [Symbol(s[0] / 4), Symbol(s[0] % 4 * 16 + s[1] / 16), Symbol(s[1] % 16 * 4), '=']
    else
      [Symbol(s[0] / 4), Symbol(s[0] % 4 * 16 + s[1] / 16), Symbol(s[1] % 16 * 4 + s[2] / 64), Symbol(s[2] % 64)]
      + Encode64(s[3..])
  }

  /** Base16 as section 8 of RFC 4648 defines it, with lower-case digits: two per byte, the high
      half first. */
  function Nibbles(s: seq<Byte>): (r: seq<int>)
    ensures |r| == 2 * |s|
    ensures forall i | 0 <= i < |r| :: 0 <= r[i] < 16
  {
    if s == [] then [] else [s[0] / 16, s[0] % 16] + Nibbles(s[1..])
  }

  function Text(n: seq<int>): string
    requires forall i | 0 <= i < |n| :: 0 <= n[i] < 16
  {
    seq(|n|, i requires 0 <= i < |n| => Digit(n[i]))
  }

  function Hex(s: seq<Byte>): string { Text(Nibbles(s)) }

  lemma IndicesCons(v: int, rest: string, k: Carry)
    requires 0 <= v < 64
    ensures Indices([Symbol(v)] + rest, k) == Take(k, v).0 + Indices(rest, Take(k, v).1)
  {
    SymbolFound(v);
    assert ([Symbol(v)] + rest)[1..] == rest;
  }

  /** Padding writes nothing. */
  lemma {:induction false} IndicesPadding(n: nat, k: Carry)
    requires k.e != 1
    ensures Indices(seq(n, _ => '='), k) == []
  {
    if n > 0 {
      assert seq(n, _ => '=')[1..] == seq(n - 1, _ => '=');
      IndicesPadding(n - 1, k);
    }
  }

  /** The carry a full group leaves behind; it is never looked at again. */
  function LeftBehind(b: Byte, d: Byte): int { (b % 16 * 4 + d / 64) % 4 }

  lemma HighHalf(a: Byte)
    ensures a / 4 / 4 == a / 16 && a / 4 % 4 * 4 + a % 4 == a % 16
  {
  }

  lemma LowHalf(d: Byte)
    ensures d / 64 * 4 + d % 64 / 16 == d / 16 && d % 64 % 16 == d % 16
  {
  }

  lemma GroupOfOne(a: Byte, rest: string, c: int)
    ensures Indices([Symbol(a / 4), Symbol(a % 4 * 16)] + rest, Carry(0, c))
         == [a / 16, a % 16] + Indices(rest, Carry(2, 0))
  {
    hide Indices, Symbol;
    var x, y := a / 4, a % 4 * 16;
    IndicesCons(x, [Symbol(y)] + rest, Carry(0, c));
    IndicesCons(y, rest, Carry(1, x % 4));
    assert [Symbol(x), Symbol(y)] + rest == [Symbol(x)] + ([Symbol(y)] + rest);
    HighHalf(a);
    assert y / 16 == a % 4 && y % 16 == 0;
  }

  lemma GroupOfTwo(a: Byte, b: Byte, v: int, rest: string, c: int)
    requires 0 <= v < 64 && v / 4 == b % 16
    ensures Indices([Symbol(a / 4), Symbol(a % 4 * 16 + b / 16), Symbol(v)] + rest, Carry(0, c))
         == [a / 16, a % 16, b / 16, b % 16] + Indices(rest, Carry(3, v % 4))
  {
    hide Indices, Symbol;
    var x, y := a / 4, a % 4 * 16 + b / 16;
    HighHalf(a);
    IndicesCons(x, [Symbol(y)] + ([Symbol(v)] + rest), Carry(0, c));
    IndicesCons(y, [Symbol(v)] + rest, Carry(1, x % 4));
    IndicesCons(v, rest, Carry(2, y % 16));
    assert [Symbol(x), Symbol(y), Symbol(v)] + rest == [Symbol(x)] + ([Symbol(y)] + ([Symbol(v)] + rest));
    assert y / 16 == a % 4 && y % 16 == b / 16;
  }

  lemma GroupOfThree(a: Byte, b: Byte, d: Byte, rest: string, c: int)
    ensures Indices([Symbol(a / 4), Symbol(a % 4 * 16 + b / 16), Symbol(b % 16 * 4 + d / 64), Symbol(d % 64)] + rest,
                    Carry(0, c))
         == [a / 16, a % 16, b / 16, b % 16, d / 16, d % 16] + Indices(rest, Carry(0, LeftBehind(b, d)))
  {
    hide Indices, Symbol;
    var v, w := b % 16 * 4 + d / 64, d % 64;
    assert v / 4 == b % 16 && v % 4 == d / 64;
    LowHalf(d);
    GroupOfTwo(a, b, v, [Symbol(w)] + rest, c);
    IndicesCons(w, rest, Carry(3, v % 4));
    assert [Symbol(a / 4), Symbol(a % 4 * 16 + b / 16), Symbol(v), Symbol(w)] + rest
        == [Symbol(a / 4), Symbol(a % 4 * 16 + b / 16), Symbol(v)] + ([Symbol(w)] + rest);
  }

  /** The indices written for the base64 of a byte string are exactly its half bytes, whatever
      the padding. */
  lemma {:induction false} IndicesAreNibbles(s: seq<Byte>, c: int)
    ensures Indices(Encode64(s), Carry(0, c)) == Nibbles(s)
    decreases |s|
  {
    if |s| >= 3 {
      GroupOfThree(s[0], s[1], s[2], Encode64(s[3..]), c);
      IndicesAreNibbles(s[3..], LeftBehind(s[1], s[2]));
      NibblesOfThree(s);
    } else if |s| == 2 {
      LastTwo(s[0], s[1], c);
      assert s == [s[0], s[1]];
    } else if |s| == 1 {
      LastOne(s[0], c);
      assert s == [s[0]];
    }
  }

  lemma LastTwo(a: Byte, b: Byte, c: int)
    ensures Indices(Encode64([a, b]), Carry(0, c)) == Nibbles([a, b])
  {
    GroupOfTwo(a, b, b % 16 * 4, ['='], c);
    IndicesPadding(1, Carry(3, 0));
    assert ['='] == seq(1, _ => '=');
    assert Encode64([a, b]) == [Symbol(a / 4), Symbol(a % 4 * 16 + b / 16), Symbol(b % 16 * 4)] + ['='];
    assert [a, b][1..] == [b] && [b][1..] == [];
    assert Nibbles([b]) == [b / 16, b % 16];
  }

  lemma LastOne(a: Byte, c: int)
    ensures Indices(Encode64([a]), Carry(0, c)) == Nibbles([a])
  {
    GroupOfOne(a, ['=', '='], c);
    IndicesPadding(2, Carry(2, 0));
    assert ['=', '='] == seq(2, _ => '=');
    assert Encode64([a]) == [Symbol(a / 4), Symbol(a % 4 * 16)] + ['=', '='];
    assert [a][1..] == [];
  }

  lemma NibblesOfThree(s: seq<Byte>)
    requires |s| >= 3
    ensures Nibbles(s)
         == [s[0] / 16, s[0] % 16, s[1] / 16, s[1] % 16, s[2] / 16, s[2] % 16] + Nibbles(s[3..])
  {
    hide Nibbles;
    NibblesFrom(s, 0);
    NibblesFrom(s, 1);
    NibblesFrom(s, 2);
    assert s[0..] == s;
    ThreePairs(s[0] / 16, s[0] % 16, s[1] / 16, s[1] % 16, s[2] / 16, s[2] % 16, Nibbles(s[3..]));
  }

  lemma ThreePairs(a: int, b: int, c: int, d: int, e: int, f: int, n: seq<int>)
    ensures [a, b] + ([c, d] + ([e, f] + n)) == [a, b, c, d, e, f] + n
  {
  }

  lemma NibblesFrom(s: seq<Byte>, i: nat)
    requires i < |s|
    ensures Nibbles(s[i..]) == [s[i] / 16, s[i] % 16] + Nibbles(s[i + 1..])
  {
    assert s[i..][1..] == s[i + 1..];
  }

  lemma {:induction false} DigitsOf(n: seq<int>)
    requires forall i | 0 <= i < |n| :: 0 <= n[i] < 16
    ensures Digits(n) == Some(Text(n))
  {
    if n != [] {
      DigitsOf(n[1..]);
      assert [Digit(n[0])] + Text(n[1..]) == Text(n);
    }
  }

  /** Converting the base64 text of any byte string gives its lower-case hexadecimal text. */
  lemma Base64ToHexIsHex(s: seq<Byte>)
    ensures Digits(Indices(Encode64(s), Carry(0, 0))) == Some(Hex(s))
  {
    IndicesAreNibbles(s, 0);
    DigitsOf(Nibbles(s));
  }
}
