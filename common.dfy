/**
 * Helpers shared by the firewall monitor, the test driver and the tracer:
 * an Option type, fixed-width upper-case hex formatting (the loop that
 * `ptr_or_error32`, `ptr_or_error64` and `uint_ptr_hexval` all repeat),
 * decimal formatting (`%u`, `%lu`, `_itoa`), ASCII case folding
 * (`TOUPPER`, `stricmp`) and the 32-bit counter arithmetic of a `DWORD`.
 */
module Common {

  datatype Option<T> = None | Some(value: T)

  const U32_MOD: nat := 0x1_0000_0000
  const U64_MOD: nat := 0x1_0000_0000_0000_0000
  const INT_MAX: int := 0x7FFF_FFFF

  /** A `DWORD` counter incremented with `++`: wraps to 0 after 0xFFFFFFFF. */
  function IncU32(x: nat): (r: nat)
    requires x < U32_MOD
    ensures r < U32_MOD
    ensures r == 0 <==> x == U32_MOD - 1
    ensures x < U32_MOD - 1 ==> r == x + 1
  {
    if x == U32_MOD - 1 then 0 else x + 1
  }

  /** The C cast `(int)x` of a value held in an unsigned word. */
  function ToInt32(x: nat): (r: int)
    ensures -0x8000_0000 <= r <= INT_MAX
    ensures (r - x) % U32_MOD == 0
  {
    var t := x % U32_MOD;
    if t > INT_MAX then t - U32_MOD else t
  }

  // ---------------------------------------------------------------- hex

  const HEX_CHARS: string := "0123456789ABCDEF"

  function Pow16(n: nat): (p: nat)
    ensures p >= 1
  {
    if n == 0 then 1 else 16 * Pow16(n - 1)
  }

  /** A 32-bit word is 8 hex digits, a 64-bit word 16. */
  lemma WordSizes()
    ensures Pow16(8) == U32_MOD && Pow16(16) == U64_MOD
  {
  }

  /** The value of one upper-case hex digit, or none. */
  function HexValue(c: char): Option<nat>
  {
    if '0' <= c <= '9' then Some(c as int - '0' as int)
    else if 'A' <= c <= 'F' then Some(c as int - 'A' as int + 10)
    else None
  }

  function HexDigit(d: nat): (c: char)
    requires d < 16
    ensures HexValue(c) == Some(d)
  {
    HEX_CHARS[d]
  }

  /**
   * The last `n` hex digits of `x`, most significant first: what the
   * shift-by-4 loop leaves in `buf[2..2+n]`. Bits above 4*n are lost.
   */
  function Hex(x: nat, n: nat): (s: string)
    ensures |s| == n
  {
    if n == 0 then [] else Hex(x / 16, n - 1) + [HexDigit(x % 16)]
  }

  /** Reads a string of upper-case hex digits back, most significant first. */
  function ParseHex(s: string): Option<nat>
  {
    if s == [] then Some(0)
    else match (ParseHex(s[..|s| - 1]), HexValue(s[|s| - 1]))
      case (Some(hi), Some(lo)) => Some(16 * hi + lo)
      case _ => None
  }

  /** Formatting and reading back are inverse when the digits fit. */
  lemma {:induction false} ParseHexOfHex(x: nat, n: nat)
    requires x < Pow16(n)
    ensures ParseHex(Hex(x, n)) == Some(x)
  {
    if n > 0 {
      var s := Hex(x, n);
      assert s[..|s| - 1] == Hex(x / 16, n - 1);
      ParseHexOfHex(x / 16, n - 1);
    }
  }

  /** `x >> (4 * k)`. */
  function Shift(x: nat, k: nat): nat
  {
    if k == 0 then x else Shift(x, k - 1) / 16
  }

  lemma {:induction false} ShiftDiv(x: nat, k: nat)
    ensures Shift(x / 16, k) == Shift(x, k + 1)
  {
    if k > 0 {
      ShiftDiv(x, k - 1);
    }
  }

  /** Most significant first: character `i` of `n` is nibble `n - 1 - i`. */
  lemma {:induction false} HexAt(x: nat, n: nat, i: nat)
    requires i < n
    ensures Hex(x, n)[i] == HexDigit(Shift(x, n - 1 - i) % 16)
  {
    if i < n - 1 {
      HexAt(x / 16, n - 1, i);
      ShiftDiv(x, n - 2 - i);
    }
  }

  /** `n + m` digits are the `n` digits above the low `m`, then those. */
  lemma {:induction false} HexSplit(x: nat, n: nat, m: nat)
    ensures Hex(x, n + m) == Hex(Shift(x, m), n) + Hex(x, m)
  {
    if m > 0 {
      HexSplit(x / 16, n, m - 1);
      ShiftDiv(x, m - 1);
      assert Hex(x, n + m) == Hex(x / 16, n + (m - 1)) + [HexDigit(x % 16)];
    }
  }

  /**
   * The loop of `ptr_or_error32`, `ptr_or_error64` and `uint_ptr_hexval`:
   * `buf[0..2] = "0x"`, then `2*size` digits written from `buf[1+2*size]`
   * down to `buf[2]`, each time taking `x % 16` and shifting `x` right by 4.
   */
  method FillHex(buf: array<char>, x: nat, size: nat)
    requires buf.Length >= 2 + 2 * size
    modifies buf
    ensures buf[..2 + 2 * size] == "0x" + Hex(x, 2 * size)
    ensures buf[2 + 2 * size..] == old(buf[2 + 2 * size..])
  {
    buf[0] := '0';
    buf[1] := 'x';
    var i, j := 0, 1 + 2 * size;
    ghost var k: nat := 0;
    var v := x;
    while i < 4 * size
      invariant 0 <= k <= 2 * size && i == 2 * k && j == 1 + 2 * size - k
      invariant buf[..2] == "0x"
      invariant Hex(x, 2 * size) == Hex(v, 2 * size - k) + buf[j + 1..2 + 2 * size]
      invariant buf[2 + 2 * size..] == old(buf[2 + 2 * size..])
    {
      ghost var done := buf[j + 1..2 + 2 * size];
      assert Hex(v, 2 * size - k) == Hex(v / 16, 2 * size - k - 1) + [HexDigit(v % 16)];
      buf[j] := HEX_CHARS[v % 16];
      assert buf[j..2 + 2 * size] == [HexDigit(v % 16)] + done;
      v := v / 16;
      i, j, k := i + 2, j - 1, k + 1;
    }
    assert buf[..2 + 2 * size] == buf[..2] + buf[2..2 + 2 * size];
  }

  // ------------------------------------------------------------ decimal

  function DecDigit(d: nat): (c: char)
    requires d < 10
    ensures '0' <= c <= '9' && c as int - '0' as int == d
  {
    "0123456789"[d]
  }

  /** `%u` / `_itoa(x, buf, 10)` of a non-negative value. */
  function Decimal(x: nat): (s: string)
    ensures 1 <= |s|
    ensures forall i | 0 <= i < |s| :: '0' <= s[i] <= '9'
  {
    if x < 10 then [DecDigit(x)] else Decimal(x / 10) + [DecDigit(x % 10)]
  }

  /** `%d` / `_itoa` of a possibly negative `int`. */
  function SignedDecimal(x: int): (s: string)
    ensures 1 <= |s|
    ensures x < 0 <==> s[0] == '-'
  {
    if x < 0 then "-" + Decimal(-x) else Decimal(x)
  }

  function ParseDecimal(s: string): Option<nat>
  {
    if s == [] then None
    else if !('0' <= s[|s| - 1] <= '9') then None
    else if |s| == 1 then Some(s[0] as int - '0' as int)
    else match ParseDecimal(s[..|s| - 1])
      case Some(hi) => Some(10 * hi + (s[|s| - 1] as int - '0' as int))
      case None => None
  }

  lemma {:induction false} ParseDecimalOfDecimal(x: nat)
    ensures ParseDecimal(Decimal(x)) == Some(x)
  {
    if x >= 10 {
      var s := Decimal(x);
      assert s[..|s| - 1] == Decimal(x / 10);
      ParseDecimalOfDecimal(x / 10);
      assert s[|s| - 1] as int - '0' as int == x % 10;
    }
  }

  // --------------------------------------------------------- case folding

  /** `toupper` in the C locale. */
  function ToUpper(c: char): (u: char)
    ensures 'a' <= c <= 'z' ==> 'A' <= u <= 'Z'
    ensures !('a' <= c <= 'z') ==> u == c
  {
    if 'a' <= c <= 'z' then (c as int - 32) as char else c
  }

  /** `stricmp(a, b) == 0`: equal lengths and equal after case folding. */
  predicate EqualsIgnoreCase(a: string, b: string)
  {
    |a| == |b| && forall i | 0 <= i < |a| :: ToUpper(a[i]) == ToUpper(b[i])
  }

  /** `strnicmp(a, b, |b|) == 0`: `b` is a prefix of `a` up to case. */
  predicate HasPrefixIgnoreCase(a: string, b: string)
  {
    |b| <= |a| && EqualsIgnoreCase(a[..|b|], b)
  }

  /** What a C routine reading a NUL-terminated buffer sees of `s`. */
  function UpToNul(s: string): (r: string)
    ensures |r| <= |s| && r == s[..|r|]
    ensures '\0' !in r
    ensures '\0' !in s ==> r == s
  {
    if s == [] || s[0] == '\0' then [] else [s[0]] + UpToNul(s[1..])
  }

  /** A C string followed by its terminator reads back as itself. */
  lemma {:induction false} UpToNulTerminated(a: string, b: string)
    requires '\0' !in a && b != [] && b[0] == '\0'
    ensures UpToNul(a + b) == a
  {
    if a != [] {
      assert (a + b)[1..] == a[1..] + b;
      UpToNulTerminated(a[1..], b);
    }
  }

  lemma HexHasNoNul(x: nat, n: nat)
    ensures '\0' !in Hex(x, n)
  {
    forall i | 0 <= i < n
      ensures Hex(x, n)[i] != '\0'
    {
      HexDigitsAreHex(x, n, i);
    }
  }

  lemma {:induction false} HexDigitsAreHex(x: nat, n: nat, i: nat)
    requires i < n
    ensures HexValue(Hex(x, n)[i]).Some?
  {
    if i < n - 1 {
      HexDigitsAreHex(x / 16, n - 1, i);
    }
  }
}
