/** The string operations the services share: ASCII case folding, trimming, the
    decimal and hexadecimal spellings of numbers and bytes, and keys joined by ':'. */
module Text {
  import opened Wrappers

  type Byte = x: int | 0 <= x < 256
  type Uint32 = x: int | 0 <= x < UINT32_SIZE
  type Uint64 = x: int | 0 <= x < UINT64_SIZE

  const UINT32_SIZE := 0x1_0000_0000
  const INT64_SIZE := 0x8000_0000_0000_0000
  const UINT64_SIZE := 0x1_0000_0000_0000_0000

  // ----- 64-bit sums -----

  /** What 64 bits keep of a number. */
  function Wrap64(n: nat): Uint64 {
    if n < UINT64_SIZE then n else Wrap64(n - UINT64_SIZE)
  }

  lemma WrapOnce(n: nat)
    requires UINT64_SIZE <= n < UINT64_SIZE + UINT64_SIZE
    ensures Wrap64(n) == n - UINT64_SIZE
  {
  }

  /** Wrapping around on the way changes nothing in the end. */
  lemma {:induction false} WrapAgain(n: nat, more: nat)
    ensures Wrap64(Wrap64(n) + more) == Wrap64(n + more)
  {
    if n >= UINT64_SIZE {
      WrapAgain(n - UINT64_SIZE, more);
    }
  }

  // ----- characters and trimming -----

  predicate IsDigit(c: char) {
    '0' <= c <= '9'
  }

  predicate IsLowerHex(c: char) {
    IsDigit(c) || 'a' <= c <= 'f'
  }

  predicate IsSpace(c: char) {
    c == ' ' || '\t' <= c <= '\r'
  }

  const UPPER_CASE := "ABCDEFGHIJKLMNOPQRSTUVWXYZ"
  const LOWER_CASE := "abcdefghijklmnopqrstuvwxyz"

  /** Case folding is that of ASCII letters, and white space the five control characters from tab on and the blank. */
  lemma AsciiFolding(c: char)
    ensures IsSpace(c) <==> c as int in {9, 10, 11, 12, 13, 32}
    ensures c !in UPPER_CASE ==> LowerChar(c) == c
    ensures forall i | 0 <= i < 26 && UPPER_CASE[i] == c :: LowerChar(c) == LOWER_CASE[i]
  {
  }

  predicate AllDigits(s: string) {
    forall c <- s :: IsDigit(c)
  }

  predicate AllLowerHex(s: string) {
    forall c <- s :: IsLowerHex(c)
  }

  function LowerChar(c: char): char {
    if 'A' <= c <= 'Z' then (c as int + 32) as char else c
  }

  function ToLower(s: string): (r: string)
    ensures |r| == |s|
  {
    seq(|s|, i requires 0 <= i < |s| => LowerChar(s[i]))
  }

  function TrimPrefix(s: string, prefix: string): string {
    if prefix <= s then s[|prefix|..] else s
  }

  predicate HasSuffix(s: string, suffix: string) {
    |suffix| <= |s| && s[|s| - |suffix|..] == suffix
  }

  function TrimSuffix(s: string, suffix: string): string {
    if HasSuffix(s, suffix) then s[..|s| - |suffix|] else s
  }

  function TrimLeft(s: string): string {
    if s != "" && IsSpace(s[0]) then TrimLeft(s[1..]) else s
  }

  function TrimRight(s: string): string {
    if s != "" && IsSpace(s[|s| - 1]) then TrimRight(s[..|s| - 1]) else s
  }

  function TrimSpace(s: string): string {
    TrimRight(TrimLeft(s))
  }

  lemma ToLowerAgain(s: string)
    ensures ToLower(ToLower(s)) == ToLower(s)
  {
    forall i | 0 <= i < |s| ensures ToLower(ToLower(s))[i] == ToLower(s)[i] {
    }
  }

  lemma LowerHexIsLower(s: string)
    requires AllLowerHex(s)
    ensures ToLower(s) == s
  {
    forall i | 0 <= i < |s| ensures ToLower(s)[i] == s[i] {
      assert s[i] in s;
    }
  }

  /** The form under which hashes and addresses are keys: no surrounding space, lower case. */
  function Clean(s: string): string {
    ToLower(TrimSpace(s))
  }

  lemma {:induction false} TrimRightIsTight(s: string)
    ensures TrimRight(s) != "" ==> !IsSpace(TrimRight(s)[|TrimRight(s)| - 1])
    ensures |TrimRight(s)| <= |s| && TrimRight(s) == s[..|TrimRight(s)|]
  {
    if s != "" && IsSpace(s[|s| - 1]) {
      TrimRightIsTight(s[..|s| - 1]);
    }
  }

  lemma {:induction false} TrimLeftIsTight(s: string)
    ensures TrimLeft(s) != "" ==> !IsSpace(TrimLeft(s)[0])
  {
    if s != "" && IsSpace(s[0]) {
      TrimLeftIsTight(s[1..]);
    }
  }

  lemma TrimAgain(s: string)
    ensures TrimSpace(TrimSpace(s)) == TrimSpace(s)
  {
    TrimLeftIsTight(s);
    TrimRightIsTight(TrimLeft(s));
  }

  predicate AllSpace(s: string) {
    forall c <- s :: IsSpace(c)
  }

  lemma {:induction false} TrimLeftOfPadded(left: string, t: string)
    requires AllSpace(left) && t != "" && !IsSpace(t[0])
    ensures TrimLeft(left + t) == t
  {
    if left == "" {
      assert left + t == t;
    } else {
      assert left[0] in left && (left + t)[1..] == left[1..] + t;
      TrimLeftOfPadded(left[1..], t);
    }
  }

  lemma {:induction false} TrimRightOfPadded(t: string, right: string)
    requires AllSpace(right) && t != "" && !IsSpace(t[|t| - 1])
    ensures TrimRight(t + right) == t
  {
    if right == "" {
      assert t + right == t;
    } else {
      var n := |right| - 1;
      assert right[n] in right && (t + right)[..|t| + n] == t + right[..n];
      TrimRightOfPadded(t, right[..n]);
    }
  }

  lemma TrimPadded(left: string, t: string, right: string)
    requires AllSpace(left) && AllSpace(right) && t != "" && !IsSpace(t[0]) && !IsSpace(t[|t| - 1])
    ensures TrimSpace(left + t + right) == t
  {
    assert left + t + right == left + (t + right);
    TrimLeftOfPadded(left, t + right);
    TrimRightOfPadded(t, right);
  }

  lemma {:induction false} TrimLeftSplits(s: string) returns (left: string)
    ensures AllSpace(left) && s == left + TrimLeft(s)
  {
    if s != "" && IsSpace(s[0]) {
      var rest := TrimLeftSplits(s[1..]);
      left := [s[0]] + rest;
    } else {
      left := "";
    }
  }

  lemma {:induction false} TrimRightSplits(s: string) returns (right: string)
    ensures AllSpace(right) && s == TrimRight(s) + right
  {
    if s != "" && IsSpace(s[|s| - 1]) {
      var rest := TrimRightSplits(s[..|s| - 1]);
      right := rest + [s[|s| - 1]];
    } else {
      right := "";
    }
  }

  lemma TrimSplits(s: string) returns (left: string, right: string)
    ensures AllSpace(left) && AllSpace(right) && s == left + TrimSpace(s) + right
  {
    left := TrimLeftSplits(s);
    right := TrimRightSplits(TrimLeft(s));
  }

  /** Cleaning a clean key changes nothing, so cleaning it twice on the way to the store is harmless. */
  lemma CleanAgain(s: string)
    ensures Clean(Clean(s)) == Clean(s)
  {
    TrimLeftIsTight(s);
    TrimRightIsTight(TrimLeft(s));
    ToLowerAgain(TrimSpace(s));
  }

  /** How a seeder reads hashes and model IDs: without "0x", lower case. */
  function SeederForm(s: string): string {
    ToLower(TrimPrefix(s, "0x"))
  }

  /** How the broker and the seeder's store read them: without space, case and "0x". */
  function BareForm(s: string): string {
    TrimPrefix(Clean(s), "0x")
  }

  // ----- decimal -----

  function Digit(d: nat): char
    requires d < 10
  {
    ('0' as int + d) as char
  }

  function Decimal(n: nat): (s: string)
    ensures s != "" && AllDigits(s)
  {
    if n < 10 then [Digit(n)] else Decimal(n / 10) + [Digit(n % 10)]
  }

  function DigitsValue(s: string): nat
    requires AllDigits(s)
  {
    if s == "" then 0
    else
      assert IsDigit(s[|s| - 1]);
      10 * DigitsValue(s[..|s| - 1]) + (s[|s| - 1] as int - '0' as int)
  }

  /** Go's ParseUint(s, 10, 32). */
  function ParseUint32(s: string): Option<Uint32> {
    if s != "" && AllDigits(s) && DigitsValue(s) < UINT32_SIZE then Some(DigitsValue(s)) else None
  }

  lemma {:induction false} DecimalValue(n: nat)
    ensures DigitsValue(Decimal(n)) == n
  {
    if n >= 10 {
      DecimalValue(n / 10);
      var s := Decimal(n / 10) + [Digit(n % 10)];
      assert s[..|s| - 1] == Decimal(n / 10);
    } else {
      assert [Digit(n)][..0] == "";
    }
  }

  /** Printing an index and parsing it back gives the index. */
  lemma ParsePrinted(n: Uint32)
    ensures ParseUint32(Decimal(n)) == Some(n)
  {
    DecimalValue(n);
  }

  lemma DecimalInjective(a: nat, b: nat)
    requires Decimal(a) == Decimal(b)
    ensures a == b
  {
    DecimalValue(a);
    DecimalValue(b);
  }

  // ----- hexadecimal -----

  function HexDigit(d: nat): char
    requires d < 16
  {
    if d < 10 then ('0' as int + d) as char else ('a' as int + d - 10) as char
  }

  /** Two lower-case digits a byte, without a prefix. */
  function Hex(bytes: seq<Byte>): (s: string)
    ensures |s| == 2 * |bytes| && AllLowerHex(s)
  {
    if bytes == [] then ""
    else Hex(bytes[..|bytes| - 1]) + [HexDigit(bytes[|bytes| - 1] / 16), HexDigit(bytes[|bytes| - 1] % 16)]
  }

  lemma HexPairInjective(x: Byte, y: Byte)
    requires HexDigit(x / 16) == HexDigit(y / 16) && HexDigit(x % 16) == HexDigit(y % 16)
    ensures x == y
  {
    assert x / 16 == y / 16 && x % 16 == y % 16;
    assert x == 16 * (x / 16) + x % 16 && y == 16 * (y / 16) + y % 16;
  }

  lemma {:induction false} HexInjective(a: seq<Byte>, b: seq<Byte>)
    requires Hex(a) == Hex(b)
    ensures a == b
  {
    if a != [] {
      var n, x, y := |a| - 1, a[|a| - 1], b[|b| - 1];
      var s, t := Hex(a[..n]), Hex(b[..n]);
      assert Hex(a) == s + [HexDigit(x / 16), HexDigit(x % 16)];
      assert Hex(b) == t + [HexDigit(y / 16), HexDigit(y % 16)];
      assert s == Hex(a)[..2 * n] == t;
      assert Hex(a)[2 * n] == HexDigit(x / 16) && Hex(b)[2 * n] == HexDigit(y / 16);
      assert Hex(a)[2 * n + 1] == HexDigit(x % 16) && Hex(b)[2 * n + 1] == HexDigit(y % 16);
      HexPairInjective(x, y);
      HexInjective(a[..n], b[..n]);
      assert a == a[..n] + [x] && b == b[..n] + [y];
    }
  }

  // ----- joined keys -----

  function Joined(head: string, tail: string): string {
    head + ":" + tail
  }

  /** Where the first ':' stands. */
  function Cut(s: string): nat {
    if s == "" || s[0] == ':' then 0 else 1 + Cut(s[1..])
  }

  lemma {:induction false} CutJoined(head: string, tail: string)
    requires ':' !in head
    ensures Cut(Joined(head, tail)) == |head|
  {
    if head != "" {
      assert Joined(head, tail)[1..] == Joined(head[1..], tail);
      assert head[0] in head;
      CutJoined(head[1..], tail);
    }
  }

  /** A key joined by ':' determines its two parts when the first has no ':' of its own. */
  lemma JoinedInjective(a: string, x: string, b: string, y: string)
    requires ':' !in a && ':' !in b
    requires Joined(a, x) == Joined(b, y)
    ensures a == b && x == y
  {
    CutJoined(a, x);
    CutJoined(b, y);
    assert a == Joined(a, x)[..|a|] && b == Joined(b, y)[..|b|];
    assert x == Joined(a, x)[|a| + 1..] && y == Joined(b, y)[|b| + 1..];
  }

  lemma LongerHeadPutsColonBehind(a: string, x: string, b: string, y: string)
    requires Joined(a, x) == Joined(b, y) && |b| < |a|
    ensures ':' in y
  {
    assert y[|a| - |b| - 1] == Joined(b, y)[|a|] == Joined(a, x)[|a|] == ':';
  }

  /** It also does when the second part of each has none. */
  lemma JoinedInjectiveFromBehind(a: string, x: string, b: string, y: string)
    requires ':' !in x && ':' !in y
    requires Joined(a, x) == Joined(b, y)
    ensures a == b && x == y
  {
    if |b| < |a| {
      LongerHeadPutsColonBehind(a, x, b, y);
    } else if |a| < |b| {
      LongerHeadPutsColonBehind(b, y, a, x);
    } else {
      assert a == Joined(a, x)[..|a|] && x == Joined(a, x)[|a| + 1..];
      assert b == Joined(b, y)[..|b|] && y == Joined(b, y)[|b| + 1..];
    }
  }
}
