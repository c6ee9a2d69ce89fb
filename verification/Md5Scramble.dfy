/** Baidu Netdisk driver: the scrambled form in which the server shows MD5 sums. */
module Md5Scramble {
  import opened Results

  // ---------- Digits ----------

  predicate IsLowerHex(c: char) { '0' <= c <= '9' || 'a' <= c <= 'f' }

  predicate IsHex(c: char) { IsLowerHex(c) || 'A' <= c <= 'F' }

  /** `strconv.ParseInt` of one character in base 16; the error is ignored and leaves 0. */
  function ParseHex(c: char): (n: int)
    ensures 0 <= n < 16
  {
    if '0' <= c <= '9' then (c - '0') as int
    else if 'a' <= c <= 'f' then (c - 'a') as int + 10
    else if 'A' <= c <= 'F' then (c - 'A') as int + 10
    else 0
  }

  function HexDigit(n: int): (c: char)
    requires 0 <= n < 16
    ensures IsLowerHex(c) && ParseHex(c) == n
  {
    if n < 10 then '0' + n as char else 'a' + (n - 10) as char
  }

  /** `strconv.FormatInt` in base 16. */
  function FormatHex(n: int): string
    decreases if n < 0 then 1 - n else n
  {
    if n < 0 then "-" + FormatHex(-n)
    else if n < 16 then [HexDigit(n)]
    else FormatHex(n / 16) + [HexDigit(n % 16)]
  }

  /** Exclusive or of the low `bits` bits. */
  function Xor(a: nat, b: nat, bits: nat): (r: nat)
    ensures r < Power(bits)
  {
    if bits == 0 then 0 else 2 * Xor(a / 2, b / 2, bits - 1) + (if a % 2 == b % 2 then 0 else 1)
  }

  function Power(bits: nat): (p: nat)
    ensures p >= 1
  {
    if bits == 0 then 1 else 2 * Power(bits - 1)
  }

  lemma {:induction false} XorUndone(a: nat, b: nat, bits: nat)
    requires a < Power(bits)
    ensures Xor(Xor(a, b, bits), b, bits) == a
  {
    if bits > 0 {
      var y := Xor(a / 2, b / 2, bits - 1);
      var x := Xor(a, b, bits);
      assert x / 2 == y && x % 2 == if a % 2 == b % 2 then 0 else 1;
      XorUndone(a / 2, b / 2, bits - 1);
    }
  }

  /** Bit `i` of a number, counted from the lowest. */
  function Bit(n: nat, i: nat): nat {
    if i == 0 then n % 2 else Bit(n / 2, i - 1)
  }

  /** A bit of the result is set iff the two bits differ. */
  lemma {:induction false} XorBits(a: nat, b: nat, bits: nat, i: nat)
    requires i < bits
    ensures Bit(Xor(a, b, bits), i) == if Bit(a, i) == Bit(b, i) then 0 else 1
  {
    var y := Xor(a / 2, b / 2, bits - 1);
    assert Xor(a, b, bits) / 2 == y;
    if i > 0 {
      XorBits(a / 2, b / 2, bits - 1, i - 1);
    }
  }

  lemma Sixteen()
    ensures Power(4) == 16
  {
    assert Power(3) == 8 by {
      assert Power(1) == 2;
    }
  }

  /** Exclusive or of two half bytes. */
  function Xor4(a: int, b: int): (r: int)
    requires 0 <= a < 16 && 0 <= b < 16
    ensures 0 <= r < 16
  {
    Sixteen();
    Xor(a, b, 4)
  }

  lemma Xor4Undone(a: int, b: int)
    requires 0 <= a < 16 && 0 <= b < 16
    ensures Xor4(Xor4(a, b), b) == a
  {
    hide Xor, Power;
    Sixteen();
    XorUndone(a, b, 4);
  }

  /** Exclusive or of any integer with a half byte: only the low half changes. */
  function XorLow(n: int, k: int): int
    requires 0 <= k < 16
  {
    n / 16 * 16 + Xor4(n % 16, k)
  }

  /** On the two's complement of a number, as on the number itself, only the low half byte changes, and
      changes back. */
  lemma XorLowBits(n: int, k: int)
    requires 0 <= k < 16
    ensures XorLow(n, k) / 16 == n / 16 && XorLow(n, k) % 16 == Xor4(n % 16, k)
    ensures XorLow(XorLow(n, k), k) == n
    ensures XorLow(-n - 1, k) == -XorLow(n, k) - 1
  {
    hide Xor, Xor4;
    Xor4Undone(n % 16, k);
    assert (-n - 1) % 16 == 15 - n % 16 && (-n - 1) / 16 == -(n / 16) - 1;
    Complement(n % 16, k);
  }

  lemma Complement(a: int, k: int)
    requires 0 <= a < 16 && 0 <= k < 16
    ensures Xor4(15 - a, k) == 15 - Xor4(a, k)
  {
    Sixteen();
    ComplementBits(a, k, 4);
  }

  lemma {:induction false} ComplementBits(a: nat, k: nat, bits: nat)
    requires a < Power(bits)
    ensures Xor(Power(bits) - 1 - a, k, bits) == Power(bits) - 1 - Xor(a, k, bits)
  {
    if bits > 0 {
      var all := Power(bits) - 1 - a;
      assert all / 2 == Power(bits - 1) - 1 - a / 2 && all % 2 == 1 - a % 2;
      ComplementBits(a / 2, k / 2, bits - 1);
    }
  }

  /** The number that hexadecimal digits stand for. */
  function ValueOf(digits: string): nat {
    if digits == "" then 0 else 16 * ValueOf(digits[..|digits| - 1]) + ParseHex(digits[|digits| - 1])
  }

  /** A number is written in lower-case digits that stand for it, with no zero in front; a number below 0
      with a sign before the digits of its opposite. */
  lemma {:induction false} FormatHexReads(n: int)
    ensures n >= 0 ==>
              && ValueOf(FormatHex(n)) == n && (forall c <- FormatHex(n) :: IsLowerHex(c))
              && FormatHex(n) != "" && (FormatHex(n)[0] == '0' ==> n == 0)
    ensures n < 0 ==> FormatHex(n) != "" && FormatHex(n)[0] == '-' && FormatHex(n)[1..] == FormatHex(-n)
    decreases if n < 0 then 1 - n else n
  {
    if n < 0 {
      assert ("-" + FormatHex(-n))[1..] == FormatHex(-n);
    } else if n < 16 {
      assert [HexDigit(n)][..0] == "";
    } else {
      FormatHexReads(n / 16);
      var most := FormatHex(n / 16);
      assert FormatHex(n)[..|FormatHex(n)| - 1] == most;
    }
  }

  /** `unicode.ToLower` on the characters a byte can stand for. */
  function ToLower(c: char): int {
    if 'A' <= c <= 'Z' || ('\U{00C0}' <= c <= '\U{00DE}' && c != '\U{00D7}') then c as int + 32 else c as int
  }

  /** It lowers the capital letters of ASCII and of Latin-1, 215 being the sign for times, and nothing else. */
  lemma LoweredAre(c: char)
    ensures var n := c as int;
            ToLower(c) == if 65 <= n <= 90 || 192 <= n <= 214 || 216 <= n <= 222 then n + 32 else n
  {
  }

  // ---------- Scrambling ----------

  /** Swaps the two blocks of eight in each half. */
  function Swap(s: string): (r: string)
    requires |s| >= 32
    ensures |r| == 32
  {
    s[8..16] + s[..8] + s[24..32] + s[16..24]
  }

  /** Where the character at place `i` comes from. */
  function Source(i: nat): nat
    requires i < 32
  {
    if i % 16 < 8 then i + 8 else i - 8
  }

  lemma SwapAt(s: string, i: nat)
    requires |s| >= 32 && i < 32
    ensures Swap(s)[i] == s[Source(i)]
  {
  }

  /** The block swap is its own inverse. */
  lemma SwapTwice(s: string)
    requires |s| == 32
    ensures Swap(Swap(s)) == s
  {
    var t := Swap(s);
    forall i: nat | i < 32 ensures Swap(t)[i] == s[i] {
      SwapAt(t, i);
      SwapAt(s, Source(i));
    }
  }

  /** The character written for a digit at place `i`: place 9 uses the letters from `g` on. */
  function ScrambleChar(i: nat, c: char): char {
    var n := Xor4(ParseHex(c), i % 16);
    if i == 9 then 'g' + n as char else HexDigit(n)
  }

  function Scramble(s: string): string {
    seq(|s|, i requires 0 <= i < |s| => ScrambleChar(i, s[i]))
  }

  method EncryptMd5(originalMd5: string) returns (r: string)
    requires |originalMd5| >= 32
    ensures r == Scramble(Swap(originalMd5))
  {
    var reversed := originalMd5[8..16] + originalMd5[..8] + originalMd5[24..32] + originalMd5[16..24];
    r := "";
    for i := 0 to |reversed|
      invariant |r| == i && forall j: nat | j < i :: r[j] == ScrambleChar(j, reversed[j])
    {
      var n := ParseHex(reversed[i]);
      n := Xor4(n, i % 16);
      if i == 9 {
        r := r + ['g' + n as char];
      } else {
        r := r + [HexDigit(n)];
      }
    }
  }

  // ---------- Unscrambling ----------

  /** `hex.DecodeString` accepts the text. */
  predicate IsHexText(s: string) {
    |s| % 2 == 0 && forall c <- s :: IsHex(c)
  }

  /** The number read at place `i`; at place 9 it can be anything. */
  function ReadAt(s: string, i: nat): int
    requires i < |s|
  {
    if i == 9 then ToLower(s[i]) - 'g' as int else ParseHex(s[i])
  }

  /** The digits written for the first `n` characters. */
  function Unscramble(s: string, n: nat): string
    requires n <= |s|
  {
    if n == 0 then "" else Unscramble(s, n - 1) + FormatHex(XorLow(ReadAt(s, n - 1), (n - 1) % 16))
  }

  /** What decryption gives; cutting too short a text into blocks crashes (`None`). */
  function Decrypted(s: string): Option<string> {
    if IsHexText(s) then Some(s)
    else
      var out := Unscramble(s, |s|);
      if |out| < 32 then None else Some(Swap(out))
  }

  method DecryptMd5(encryptMd5: string) returns (r: Option<string>)
    ensures r == Decrypted(encryptMd5)
  {
    if |encryptMd5| % 2 == 0 && forall c <- encryptMd5 :: IsHex(c) {
      return Some(encryptMd5);
    }
    var out := "";
    for i := 0 to |encryptMd5|
      invariant out == Unscramble(encryptMd5, i)
    {
      var n := if i == 9 then ToLower(encryptMd5[i]) - 'g' as int else ParseHex(encryptMd5[i]);
      out := out + FormatHex(XorLow(n, i % 16));
    }
    if |out| < 32 {
      return None;
    }
    r := Some(out[8..16] + out[..8] + out[24..32] + out[16..24]);
  }

  // ---------- Round trips ----------

  predicate IsMd5(s: string) {
    |s| == 32 && forall c <- s :: IsLowerHex(c)
  }

  /** The form the server uses: place 9 holds a letter from `g` to `v`, the other places
      lower-case digits. */
  predicate IsScrambled(s: string) {
    |s| == 32 && 'g' <= s[9] <= 'v' && forall i | 0 <= i < 32 && i != 9 :: IsLowerHex(s[i])
  }

  /** Every digit in lower case, and 0 for what is not a digit. */
  function Normal(s: string): (r: string)
    ensures |r| == |s|
  {
    seq(|s|, i requires 0 <= i < |s| => HexDigit(ParseHex(s[i])))
  }

  /** Place 9 of a scrambled text is never a digit, so decryption never takes it for plain. */
  lemma ScrambledIsNotHex(s: string)
    requires IsScrambled(s)
    ensures !IsHexText(s)
  {
    assert s[9] in s;
  }

  lemma ScrambleGivesScrambled(s: string)
    requires |s| == 32
    ensures IsScrambled(Scramble(s))
  {
  }

  /** One half byte gives one digit. */
  lemma OneDigit(v: int, k: int)
    requires 0 <= v < 16 && 0 <= k < 16
    ensures FormatHex(XorLow(v, k)) == [HexDigit(Xor4(v, k))]
  {
    assert v / 16 == 0 && v % 16 == v;
  }

  lemma ReadsHalfByte(s: string, i: nat)
    requires IsScrambled(s) && i < 32
    ensures 0 <= ReadAt(s, i) < 16
  {
  }

  lemma UnscrambleNext(s: string, n: nat)
    requires IsScrambled(s) && n < 32
    ensures 0 <= ReadAt(s, n) < 16
    ensures Unscramble(s, n + 1) == Unscramble(s, n) + [HexDigit(Xor4(ReadAt(s, n), n % 16))]
  {
    hide IsScrambled, FormatHex, XorLow, Xor4, ReadAt, HexDigit;
    Sized(s);
    ReadsHalfByte(s, n);
    OneDigit(ReadAt(s, n), n % 16);
  }

  lemma Sized(s: string)
    requires IsScrambled(s)
    ensures |s| == 32
  {
  }

  /** Each character of a scrambled text gives exactly one digit back. */
  lemma {:induction false} UnscrambleAt(s: string, n: nat)
    requires IsScrambled(s) && n <= 32
    ensures |s| == 32 && |Unscramble(s, n)| == n
    ensures forall i: nat | i < n ::
              0 <= ReadAt(s, i) < 16 && Unscramble(s, n)[i] == HexDigit(Xor4(ReadAt(s, i), i % 16))
  {
    hide IsScrambled, FormatHex, XorLow, Xor4, ReadAt, HexDigit;
    Sized(s);
    if n > 0 {
      UnscrambleAt(s, n - 1);
      UnscrambleNext(s, n - 1);
    }
  }

  /** What scrambling writes at one place reads back as the digit it came from. */
  lemma ReadsBack(s: string, i: nat)
    requires |s| == 32 && i < 32
    ensures ReadAt(Scramble(s), i) == Xor4(ParseHex(s[i]), i % 16)
  {
    hide Xor4;
  }

  /** Unscrambling undoes scrambling up to the case of the digits. */
  lemma UnscrambleScramble(s: string)
    requires |s| == 32
    ensures Unscramble(Scramble(s), 32) == Normal(s)
  {
    hide IsScrambled, Xor4, ReadAt, HexDigit, Unscramble, ParseHex, Scramble;
    var t := Scramble(s);
    ScrambleGivesScrambled(s);
    UnscrambleAt(t, 32);
    forall i: nat | i < 32 ensures Unscramble(t, 32)[i] == Normal(s)[i] {
      ReadsBack(s, i);
      Xor4Undone(ParseHex(s[i]), i % 16);
    }
  }

  lemma NormalAt(s: string, i: nat)
    requires i < |s|
    ensures Normal(s)[i] == HexDigit(ParseHex(s[i]))
  {
  }

  /** Character by character: lower-case digits stay, upper-case ones are lowered, anything else is a zero. */
  lemma NormalIs(s: string, i: nat)
    requires i < |s|
    ensures Normal(s)[i]
         == if s[i] in "0123456789abcdef" then s[i]
            else if s[i] in "ABCDEF" then s[i] + ('a' - 'A')
            else '0'
  {
  }

  /** Lowering the digits commutes with swapping the blocks. */
  lemma SwapNormal(x: string)
    requires |x| == 32
    ensures Swap(Normal(Swap(x))) == Normal(x)
  {
    hide Swap, Normal, HexDigit, ParseHex;
    forall i: nat | i < 32 ensures Swap(Normal(Swap(x)))[i] == Normal(x)[i] {
      SwapAt(Normal(Swap(x)), i);
      SwapAt(x, Source(i));
      NormalAt(Swap(x), Source(i));
      NormalAt(x, i);
    }
  }

  /** Decrypting an encrypted text gives the text back iff it is an MD5 sum in lower case; any
      other text comes back with its letters lowered and its other characters as zeros. */
  lemma DecryptEncrypt(x: string)
    requires |x| == 32
    ensures Decrypted(Scramble(Swap(x))) == Some(Normal(x))
    ensures Decrypted(Scramble(Swap(x))) == Some(x) <==> IsMd5(x)
  {
    hide Scramble, Unscramble, Swap, Normal, IsHexText, IsMd5;
    var y := Scramble(Swap(x));
    ScrambleGivesScrambled(Swap(x));
    ScrambledIsNotHex(y);
    Sized(y);
    UnscrambleScramble(Swap(x));
    SwapNormal(x);
    NormalIff(x);
  }

  lemma NormalIff(x: string)
    requires |x| == 32
    ensures Normal(x) == x <==> IsMd5(x)
  {
    if Normal(x) == x {
      forall c <- x ensures IsLowerHex(c) {
        var i :| 0 <= i < 32 && x[i] == c;
        assert x[i] == Normal(x)[i];
      }
    } else if IsMd5(x) {
      forall i | 0 <= i < 32 ensures Normal(x)[i] == x[i] {
        assert x[i] in x;
        DigitOfValue(x[i]);
      }
    }
  }

  lemma DigitOfValue(c: char)
    requires IsLowerHex(c)
    ensures HexDigit(ParseHex(c)) == c
  {
  }

  /** Scrambling the digit read from one place writes that place again. */
  lemma WritesBack(y: string, i: nat)
    requires IsScrambled(y) && i < |y|
    ensures 0 <= ReadAt(y, i) < 16
    ensures ScrambleChar(i, HexDigit(Xor4(ReadAt(y, i), i % 16))) == y[i]
  {
    Xor4Undone(ReadAt(y, i), i % 16);
    if i != 9 {
      DigitOfValue(y[i]);
    }
  }

  lemma ScrambleAt(s: string, i: nat)
    requires i < |s|
    ensures |Scramble(s)| == |s| && Scramble(s)[i] == ScrambleChar(i, s[i])
  {
  }

  lemma ScrambleUnscramble(y: string)
    requires IsScrambled(y)
    ensures |y| == 32 && |Unscramble(y, 32)| == 32 && Scramble(Unscramble(y, 32)) == y
  {
    hide Scramble, Unscramble, IsScrambled, ScrambleChar, ReadAt, HexDigit, Xor4;
    UnscrambleAt(y, 32);
    var out := Unscramble(y, 32);
    ScrambleAt(out, 0);
    forall i: nat | i < 32 ensures Scramble(out)[i] == y[i] {
      ScrambleAt(out, i);
      WritesBack(y, i);
    }
  }

  /** Encrypting a decrypted text gives the text back iff it has the scrambled form. */
  lemma EncryptDecrypt(y: string)
    ensures Decrypted(y).Some? && |Decrypted(y).value| >= 32 && Scramble(Swap(Decrypted(y).value)) == y
       <==> IsScrambled(y)
  {
    hide Scramble, Unscramble, IsScrambled, Swap, IsHexText;
    if IsScrambled(y) {
      ScrambledIsNotHex(y);
      ScrambleUnscramble(y);
      SwapTwice(Unscramble(y, 32));
    } else if Decrypted(y).Some? && |Decrypted(y).value| >= 32 {
      ScrambleGivesScrambled(Swap(Decrypted(y).value));
    }
  }

  // ---------- Texts that are not in the scrambled form ----------

  /** Hexadecimal text is taken for a plain sum and left alone. */
  lemma PlainStays(s: string)
    requires |s| % 2 == 0 && forall c <- s :: c in "0123456789abcdefABCDEF"
    ensures Decrypted(s) == Some(s)
  {
  }

  /** How much longer the digits are than the text: only place 9 can give more than one. */
  function Extra(s: string): nat {
    if |s| <= 9 then 0
    else
      FormatHexReads(XorLow(ReadAt(s, 9), 9));
      |FormatHex(XorLow(ReadAt(s, 9), 9))| - 1
  }

  lemma {:induction false} UnscrambleLength(s: string, n: nat)
    requires n <= |s|
    ensures |Unscramble(s, n)| == n + if n <= 9 then 0 else Extra(s)
  {
    hide XorLow, FormatHex, Xor4;
    if n > 0 {
      UnscrambleLength(s, n - 1);
      FormatHexReads(XorLow(ReadAt(s, n - 1), (n - 1) % 16));
      if n - 1 != 9 {
        OneDigit(ParseHex(s[n - 1]), (n - 1) % 16);
      }
    }
  }

  /** Decrypting crashes iff the text is not hexadecimal and too short to give 32 digits. */
  lemma CrashesIff(s: string)
    ensures Decrypted(s).None? <==> !IsHexText(s) && |s| + Extra(s) < 32
  {
    hide IsHexText, Extra;
    UnscrambleLength(s, |s|);
    if |s| <= 9 {
      NoExtra(s);
    }
  }

  lemma NoExtra(s: string)
    requires |s| <= 9
    ensures Extra(s) == 0
  {
  }

  /** The case of letters does not matter: not at place 9 either. */
  lemma CaseIgnored(y: string, z: string)
    requires IsScrambled(y) && |z| == |y|
    requires forall i | 0 <= i < |y| :: z[i] == y[i] || ('a' <= y[i] <= 'v' && z[i] == 'A' + (y[i] - 'a'))
    ensures Decrypted(z) == Decrypted(y)
  {
    assert z[9] in z && y[9] in y;
    assert !IsHexText(z) && !IsHexText(y);
    forall i: nat | i < |y| ensures ReadAt(z, i) == ReadAt(y, i) {
    }
    hide ReadAt, IsHexText;
    SameDigits(y, z, |y|);
  }

  lemma {:induction false} SameDigits(y: string, z: string, n: nat)
    requires |y| == |z| && n <= |y| && forall i: nat | i < |y| :: ReadAt(z, i) == ReadAt(y, i)
    ensures Unscramble(z, n) == Unscramble(y, n)
  {
    if n > 0 {
      SameDigits(y, z, n - 1);
    }
  }
}
