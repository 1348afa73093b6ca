/**
 * Base64 as `btoa` and `atob` do it (section 4 of RFC 4648 and the forgiving decoder of the WHATWG Infra
 * standard), and the URL-safe, unpadded form of section 5 that tokens use.
 */
module Base64 {
  import opened Wrappers

  type Octet = x: int | 0 <= x < 256
  type Sextet = x: int | 0 <= x < 64

  // ----- Regrouping bits -----

  function Sextets(b: seq<Octet>): (s: seq<Sextet>)
    ensures |s| % 4 != 1
    ensures |b| == 0 <==> |s| == 0
  {
    if |b| == 0 then []
    else if |b| == 1 then [b[0] / 4, b[0] % 4 * 16]
    else if |b| == 2 then [b[0] / 4, b[0] % 4 * 16 + b[1] / 16, b[1] % 16 * 4]
    else [b[0] / 4, b[0] % 4 * 16 + b[1] / 16, b[1] % 16 * 4 + b[2] / 64, b[2] % 64] + Sextets(b[3..])
  }

  function First(x: Sextet, y: Sextet): Octet { x * 4 + y / 16 }

  function Second(x: Sextet, y: Sextet): Octet { x % 16 * 16 + y / 4 }

  function Third(x: Sextet, y: Sextet): Octet { x % 4 * 64 + y }

  function Quantum(a: Sextet, b: Sextet, c: Sextet, d: Sextet): seq<Octet> {
    [First(a, b), Second(b, c), Third(c, d)]
  }

  /** The bits left over after the last whole octet are dropped. */
  function Octets(s: seq<Sextet>): seq<Octet> {
    if |s| >= 4 then Quantum(s[0], s[1], s[2], s[3]) + Octets(s[4..])
    else if |s| == 3 then [First(s[0], s[1]), Second(s[1], s[2])]
    else if |s| == 2 then [First(s[0], s[1])]
    else []
  }

  /** Three octets survive being cut into four sextets. */
  lemma ThreeOctets(x: Octet, y: Octet, z: Octet)
    ensures First(x / 4, x % 4 * 16 + y / 16) == x
    ensures Second(x % 4 * 16 + y / 16, y % 16 * 4 + z / 64) == y
    ensures Third(y % 16 * 4 + z / 64, z % 64) == z
  {
  }

  lemma {:induction false} OctetsOfSextets(b: seq<Octet>)
    ensures Octets(Sextets(b)) == b
  {
    if |b| >= 3 {
      OctetsOfSextets(b[3..]);
      ThreeOctets(b[0], b[1], b[2]);
      assert Sextets(b)[4..] == Sextets(b[3..]);
      assert b == [b[0], b[1], b[2]] + b[3..];
    } else if |b| == 2 {
      ThreeOctets(b[0], b[1], 0);
    } else if |b| == 1 {
      ThreeOctets(b[0], 0, 0);
    }
  }

  /** No bits are lost in decoding: the text is the one encoding of its octets. */
  predicate Canonical(s: seq<Sextet>)
    requires |s| % 4 != 1
  {
    && (|s| % 4 == 2 ==> s[|s| - 1] % 16 == 0)
    && (|s| % 4 == 3 ==> s[|s| - 1] % 4 == 0)
  }

  lemma {:induction false} SextetsOfOctets(s: seq<Sextet>)
    requires |s| % 4 != 1
    ensures Sextets(Octets(s)) == s <==> Canonical(s)
    ensures |Sextets(Octets(s))| == |s|
  {
    if |s| >= 4 {
      var rest := s[4..];
      SextetsOfOctets(rest);
      FirstQuantum(s);
      SameTail(s[..4], Sextets(Octets(rest)), rest);
      assert s == s[..4] + rest;
      CanonicalTail(s);
    } else {
      SextetsOfFew(s);
    }
  }

  lemma SextetsOfFew(s: seq<Sextet>)
    requires |s| == 0 || |s| == 2 || |s| == 3
    ensures Sextets(Octets(s)) == s <==> Canonical(s)
    ensures |Sextets(Octets(s))| == |s|
  {
    if |s| == 2 {
      assert Sextets(Octets(s)) == [s[0], s[1] / 16 * 16];
    } else if |s| == 3 {
      assert First(s[0], s[1]) / 4 == s[0] && First(s[0], s[1]) % 4 == s[1] / 16;
      assert Second(s[1], s[2]) / 16 == s[1] % 16 && Second(s[1], s[2]) % 16 == s[2] / 4;
      assert Sextets(Octets(s)) == [s[0], s[1], s[2] / 4 * 4];
    }
  }

  lemma SameTail<T>(head: seq<T>, a: seq<T>, b: seq<T>)
    ensures head + a == head + b <==> a == b
  {
    assert (head + a)[|head|..] == a && (head + b)[|head|..] == b;
  }

  lemma CanonicalTail(s: seq<Sextet>)
    requires |s| >= 4 && |s| % 4 != 1
    ensures Canonical(s[4..]) <==> Canonical(s)
  {
    var n := |s| - 4;
    assert n % 4 == |s| % 4;
    if n > 0 { assert s[4..][n - 1] == s[|s| - 1]; }
  }

  lemma FirstQuantum(s: seq<Sextet>)
    requires |s| >= 4
    ensures Sextets(Octets(s)) == s[..4] + Sextets(Octets(s[4..]))
  {
    FirstFour(s);
    SextetsOfQuantum(s[0], s[1], s[2], s[3], Octets(s[4..]));
  }

  lemma FirstFour<T>(s: seq<T>)
    requires |s| >= 4
    ensures s[..4] == [s[0], s[1], s[2], s[3]]
  {
  }

  lemma SextetsOfQuantum(a: Sextet, b: Sextet, c: Sextet, d: Sextet, rest: seq<Octet>)
    ensures Sextets(Quantum(a, b, c, d) + rest) == [a, b, c, d] + Sextets(rest)
  {
    assert (Quantum(a, b, c, d) + rest)[3..] == rest;
    assert First(a, b) / 4 == a;
    assert First(a, b) % 4 * 16 + Second(b, c) / 16 == b;
    assert Second(b, c) % 16 * 4 + Third(c, d) / 64 == c;
    assert Third(c, d) % 64 == d;
  }

  // ----- btoa and atob -----

  /** The alphabet of section 4 of RFC 4648. */
  function Symbol(x: Sextet): char {
    if x < 26 then (('A' as int) + x) as char
    else if x < 52 then (('a' as int) + x - 26) as char
    else if x < 62 then (('0' as int) + x - 52) as char
    else if x == 62 then '+'
    else '/'
  }

  function Value(c: char): Option<Sextet> {
    if 'A' <= c <= 'Z' then Some((c as int) - ('A' as int))
    else if 'a' <= c <= 'z' then Some((c as int) - ('a' as int) + 26)
    else if '0' <= c <= '9' then Some((c as int) - ('0' as int) + 52)
    else if c == '+' then Some(62)
    else if c == '/' then Some(63)
    else None
  }

  lemma SymbolValue(x: Sextet)
    ensures Value(Symbol(x)) == Some(x)
  {
  }

  function Symbols(s: seq<Sextet>): (t: string)
    ensures |t| == |s| && forall i | 0 <= i < |s| :: t[i] == Symbol(s[i])
  {
    seq(|s|, i requires 0 <= i < |s| => Symbol(s[i]))
  }

  function Padding(n: nat): (p: string)
    ensures |p| == (4 - n % 4) % 4 && forall i | 0 <= i < |p| :: p[i] == '='
  {
    seq((4 - n % 4) % 4, i => '=')
  }

  function Btoa(b: seq<Octet>): string {
    Symbols(Sextets(b)) + Padding(|Sextets(b)|)
  }

  function WithoutSpace(t: string): string {
    if t == "" then ""
    else (if t[0] in "\t\n\U{c}\r " then "" else [t[0]]) + WithoutSpace(t[1..])
  }

  /** When the length is a multiple of four, up to two trailing '=' are not part of the text. */
  function WithoutPadding(t: string): string {
    if |t| % 4 == 0 && |t| > 0 && t[|t| - 1] == '=' then
      if t[|t| - 2] == '=' then t[..|t| - 2] else t[..|t| - 1]
    else t
  }

  function Values(t: string): (r: Option<seq<Sextet>>)
    ensures r.Some? ==> |r.value| == |t|
  {
    if t == "" then Some([])
    else match (Value(t[0]), Values(t[1..]))
      case (Some(x), Some(rest)) => Some([x] + rest)
      case _ => None
  }

  /** `atob`; None stands for the InvalidCharacterError it throws. */
  function Atob(text: string): Option<seq<Octet>> {
    var t := WithoutPadding(WithoutSpace(text));
    if |t| % 4 == 1 then None
    else match Values(t)
      case Some(s) => Some(Octets(s))
      case None => None
  }

  lemma {:induction false} ValuesOfSymbols(s: seq<Sextet>)
    ensures Values(Symbols(s)) == Some(s)
  {
    if s != [] {
      SymbolValue(s[0]);
      ValuesOfSymbols(s[1..]);
      assert Symbols(s)[1..] == Symbols(s[1..]);
      assert s == [s[0]] + s[1..];
    }
  }

  lemma {:induction false} NoSpace(t: string)
    requires forall c | c in t :: Value(c).Some? || c == '='
    ensures WithoutSpace(t) == t
  {
    if t != "" {
      assert t[0] in t;
      NoSpace(t[1..]);
    }
  }

  lemma SymbolsAreValues(s: seq<Sextet>, c: char)
    requires c in Symbols(s)
    ensures Value(c).Some? && c != '='
  {
    var i :| 0 <= i < |s| && Symbols(s)[i] == c;
    SymbolValue(s[i]);
  }

  /** Padded to a multiple of four, the symbols of any sextets decode to their octets. */
  lemma PaddedDecodes(s: seq<Sextet>)
    requires |s| % 4 != 1
    ensures Atob(Symbols(s) + Padding(|s|)) == Some(Octets(s))
  {
    var core, t := Symbols(s), Symbols(s) + Padding(|s|);
    forall c | c in t ensures Value(c).Some? || c == '=' {
      if c in core { SymbolsAreValues(s, c); }
    }
    NoSpace(t);
    if |core| > 0 { SymbolsAreValues(s, core[|core| - 1]); }
    DropsPadding(core);
    ValuesOfSymbols(s);
  }

  lemma DropsPadding(core: string)
    requires |core| % 4 != 1 && (core == "" || core[|core| - 1] != '=')
    ensures WithoutPadding(core + Padding(|core|)) == core
  {
    var t, n := core + Padding(|core|), |Padding(|core|)|;
    assert |t| % 4 == 0;
    assert n <= 2;
    if n == 1 {
      assert t[|t| - 1] == '=' && t[|t| - 2] == core[|core| - 1];
    }
    assert t[..|core|] == core;
  }

  lemma AtobOfBtoa(b: seq<Octet>)
    ensures Atob(Btoa(b)) == Some(b)
  {
    PaddedDecodes(Sextets(b));
    OctetsOfSextets(b);
  }

  // ----- What atob takes -----

  /** Tab, line feed, form feed, carriage return and space. */
  predicate IsSpace(c: char) {
    var code := c as int;
    code == 9 || code == 10 || code == 12 || code == 13 || code == 32
  }

  predicate InAlphabet(c: char) {
    'A' <= c <= 'Z' || 'a' <= c <= 'z' || '0' <= c <= '9' || c == '+' || c == '/'
  }

  lemma {:induction false} WithoutSpaceSplits(a: string, b: string)
    ensures WithoutSpace(a + b) == WithoutSpace(a) + WithoutSpace(b)
  {
    if a == "" {
      assert a + b == b;
    } else {
      WithoutSpaceSplits(a[1..], b);
      assert (a + b)[1..] == a[1..] + b;
    }
  }

  /** White space makes no difference, wherever it stands. */
  lemma SpaceIsIgnored(a: string, c: char, b: string)
    requires IsSpace(c)
    ensures Atob(a + [c] + b) == Atob(a + b)
  {
    SpaceAlone(c);
    WithoutSpaceSplits(a, [c]);
    WithoutSpaceSplits(a + [c], b);
    WithoutSpaceSplits(a, b);
    SameWithoutSpace(a + [c] + b, a + b, WithoutSpace(a) + WithoutSpace(b));
  }

  lemma SpaceAlone(c: char)
    requires IsSpace(c)
    ensures WithoutSpace([c]) == ""
  {
    assert [c][1..] == "";
  }

  lemma SameWithoutSpace(s: string, t: string, core: string)
    requires WithoutSpace(s) == core && WithoutSpace(t) == core
    ensures Atob(s) == Atob(t)
  {
  }

  ghost predicate AllInAlphabet(t: string) {
    forall c | c in t :: InAlphabet(c)
  }

  lemma AlphabetOfCons(t: string)
    requires t != ""
    ensures AllInAlphabet(t) <==> InAlphabet(t[0]) && AllInAlphabet(t[1..])
  {
    assert t == [t[0]] + t[1..];
  }

  lemma {:induction false} ValuesExactly(t: string)
    ensures Values(t).Some? <==> AllInAlphabet(t)
  {
    if t != "" {
      ValuesExactly(t[1..]);
      AlphabetOfCons(t);
    }
  }

  lemma {:induction false} NoSpaceStays(t: string)
    requires forall c | c in t :: !IsSpace(c)
    ensures WithoutSpace(t) == t
  {
    if t != "" {
      assert t[0] in t;
      NoSpaceStays(t[1..]);
    }
  }

  /** The text is symbols of the alphabet, not one more than a multiple of four, then padding that fills it up to one. */
  ghost predicate Padded(t: string, core: string, pad: string) {
    && t == core + pad && (pad == "" || ((pad == "=" || pad == "==") && |t| % 4 == 0))
    && |core| % 4 != 1 && AllInAlphabet(core)
  }

  lemma PaddedIs(t: string, core: string, pad: string)
    requires Padded(t, core, pad)
    ensures WithoutPadding(t) == core
  {
    if core != "" { assert core[|core| - 1] in core && InAlphabet(core[|core| - 1]); }
    if pad != "" {
      assert t[|t| - 1] == '=';
      assert |t| > |pad|;
      assert t[|t| - 2] == if pad == "=" then core[|core| - 1] else '=';
    } else if core != "" {
      assert t[|t| - 1] == core[|core| - 1];
    }
    assert t[..|core|] == core;
  }

  /** Without white space, a text is taken exactly if it is such symbols, unpadded or with one or two signs of padding. */
  lemma TakenExactly(t: string)
    requires forall c | c in t :: !IsSpace(c)
    ensures Atob(t).Some? <==> exists core, pad :: Padded(t, core, pad)
  {
    NoSpaceStays(t);
    var core := WithoutPadding(t);
    ValuesExactly(core);
    if Atob(t).Some? { assert Padded(t, core, t[|core|..]); }
    if c, p :| Padded(t, c, p) { PaddedIs(t, c, p); }
  }

  // ----- The loops around btoa and atob -----

  function Latin1(b: seq<Octet>): (t: string)
    ensures |t| == |b| && forall i | 0 <= i < |b| :: t[i] == b[i] as char
  {
    seq(|b|, i requires 0 <= i < |b| => b[i] as char)
  }

  /** `btoa` takes its octets as the characters of a string. */
  function Codes(t: string): (b: seq<Octet>)
    requires forall i | 0 <= i < |t| :: (t[i] as int) < 256
    ensures |b| == |t| && forall i | 0 <= i < |t| :: b[i] == t[i] as int
  {
    seq(|t|, i requires 0 <= i < |t| => t[i] as int)
  }

  method BytesToBase64(bytes: seq<Octet>) returns (text: string)
    ensures text == Btoa(bytes)
  {
    var bin: string := "";
    var k := 0;
    while k < |bytes|
      invariant k <= |bytes| && bin == Latin1(bytes[..k])
    {
      bin := bin + [bytes[k] as char];
      k := k + 1;
    }
    assert Codes(bin) == bytes;
    text := Btoa(Codes(bin));
  }

  method Base64ToBytes(base64: string) returns (out: Option<seq<Octet>>)
    ensures out == Atob(base64)
  {
    var decoded := Atob(base64);
    if decoded.None? { return None; }
    var bin := Latin1(decoded.value);
    var bytes: seq<Octet> := seq(|bin|, i => 0);
    var i := 0;
    while i < |bin|
      invariant i <= |bin| == |bytes|
      invariant bytes[..i] == decoded.value[..i]
    {
      bytes := bytes[i := bin[i] as int];
      assert bytes[..i + 1] == bytes[..i] + [bytes[i]];
      i := i + 1;
    }
    assert bytes[..i] == bytes && decoded.value[..i] == decoded.value;
    return Some(bytes);
  }

  // ----- The URL-safe form -----

  function UrlSafe(c: char): char {
    if c == '+' then '-' else if c == '/' then '_' else c
  }

  function FromUrlSafe(c: char): char {
    if c == '-' then '+' else if c == '_' then '/' else c
  }

  function Replace(f: char -> char, t: string): (r: string)
    ensures |r| == |t| && forall i | 0 <= i < |t| :: r[i] == f(t[i])
  {
    seq(|t|, i requires 0 <= i < |t| => f(t[i]))
  }

  function StripTrailing(t: string): string {
    if t != "" && t[|t| - 1] == '=' then StripTrailing(t[..|t| - 1]) else t
  }

  function UrlEncode(b: seq<Octet>): string {
    StripTrailing(Replace(UrlSafe, Btoa(b)))
  }

  function UrlDecode(t: string): Option<seq<Octet>> {
    var normalized := Replace(FromUrlSafe, t);
    Atob(normalized + Padding(|normalized|))
  }

  /** A text of the URL form is decoded as the one with `+` for `-` and `/` for `_`, filled up to a multiple of four. */
  lemma UrlDecodeIs(t: string, plain: string, pad: string)
    requires |plain| == |t|
    requires forall i | 0 <= i < |t| :: plain[i] == if t[i] == '-' then '+' else if t[i] == '_' then '/' else t[i]
    requires |pad| < 4 && (|t| + |pad|) % 4 == 0 && forall c | c in pad :: c == '='
    ensures UrlDecode(t) == Atob(plain + pad)
  {
    var normalized := Replace(FromUrlSafe, t);
    assert normalized == plain;
    assert |pad| == |Padding(|t|)|;
    forall i | 0 <= i < |pad| ensures pad[i] == Padding(|t|)[i] { assert pad[i] in pad; }
    assert pad == Padding(|t|);
  }

  lemma {:induction false} StripsAll(core: string, pad: string)
    requires core == "" || core[|core| - 1] != '='
    requires forall i | 0 <= i < |pad| :: pad[i] == '='
    ensures StripTrailing(core + pad) == core
  {
    var t := core + pad;
    if pad == "" {
      assert t == core;
    } else {
      assert t[|t| - 1] == pad[|pad| - 1];
      assert t[..|t| - 1] == core + pad[..|pad| - 1];
      StripsAll(core, pad[..|pad| - 1]);
    }
  }

  /** The encoded text: the symbols, with the two URL characters swapped and the padding gone. */
  lemma UrlEncodeIs(b: seq<Octet>)
    ensures UrlEncode(b) == Replace(UrlSafe, Symbols(Sextets(b)))
  {
    var s := Sextets(b);
    var core, pad := Replace(UrlSafe, Symbols(s)), Padding(|s|);
    assert Replace(UrlSafe, Btoa(b)) == core + pad;
    if core != "" {
      assert Symbols(s)[|s| - 1] in Symbols(s);
      SymbolsAreValues(s, Symbols(s)[|s| - 1]);
    }
    StripsAll(core, pad);
  }

  /** Decoding undoes encoding, for every byte string. */
  lemma UrlRoundTrip(b: seq<Octet>)
    ensures UrlDecode(UrlEncode(b)) == Some(b)
  {
    UrlEncodeIs(b);
    SwapBack(Sextets(b));
    PaddedDecodes(Sextets(b));
    OctetsOfSextets(b);
  }

  /** Encoding undoes decoding exactly on canonical texts: those whose last symbol carries no spare bits. */
  lemma UrlReEncode(s: seq<Sextet>)
    requires |s| % 4 != 1
    ensures var text := Replace(UrlSafe, Symbols(s));
            UrlDecode(text) == Some(Octets(s)) && (UrlEncode(Octets(s)) == text <==> Canonical(s))
  {
    SwapBack(s);
    PaddedDecodes(s);
    SextetsOfOctets(s);
    UrlEncodeIs(Octets(s));
    if UrlEncode(Octets(s)) == Replace(UrlSafe, Symbols(s)) {
      SameSymbols(Sextets(Octets(s)), s);
    }
  }

  /** Swapping the two URL characters back restores the symbols. */
  lemma SwapBack(s: seq<Sextet>)
    ensures Replace(FromUrlSafe, Replace(UrlSafe, Symbols(s))) == Symbols(s)
  {
    forall i | 0 <= i < |s| ensures FromUrlSafe(UrlSafe(Symbols(s)[i])) == Symbols(s)[i] {
      assert Symbols(s)[i] in Symbols(s);
      SymbolsAreValues(s, Symbols(s)[i]);
    }
  }

  lemma SameSymbols(a: seq<Sextet>, b: seq<Sextet>)
    requires Replace(UrlSafe, Symbols(a)) == Replace(UrlSafe, Symbols(b))
    ensures a == b
  {
    assert |a| == |Replace(UrlSafe, Symbols(a))| == |b|;
    forall i | 0 <= i < |a| ensures a[i] == b[i] {
      SymbolValue(a[i]);
      SymbolValue(b[i]);
      assert Replace(UrlSafe, Symbols(a))[i] == UrlSafe(Symbol(a[i]));
      assert Replace(UrlSafe, Symbols(b))[i] == UrlSafe(Symbol(b[i]));
    }
  }

  /** URL-safe text never holds a dot. */
  lemma UrlEncodeHasNoDot(b: seq<Octet>)
    ensures '.' !in UrlEncode(b)
  {
    UrlEncodeIs(b);
    var s := Sextets(b);
    forall i | 0 <= i < |s| ensures UrlEncode(b)[i] != '.' {
      assert Symbols(s)[i] in Symbols(s);
      SymbolsAreValues(s, Symbols(s)[i]);
    }
  }

  // ----- Comparing without an early exit -----

  /** The low `n` bits of `x ^ y` and `x | y`. */
  function BitXor(n: nat, x: nat, y: nat): nat {
    if n == 0 then 0 else (if x % 2 != y % 2 then 1 else 0) + 2 * BitXor(n - 1, x / 2, y / 2)
  }

  function BitOr(n: nat, x: nat, y: nat): nat {
    if n == 0 then 0 else (if x % 2 == 1 || y % 2 == 1 then 1 else 0) + 2 * BitOr(n - 1, x / 2, y / 2)
  }

  /** The number has no bit beyond the lowest `n`. */
  predicate Fits(n: nat, x: nat) {
    if n == 0 then x == 0 else Fits(n - 1, x / 2)
  }

  lemma {:induction false} NoBitLeft(n: nat, x: nat, y: nat, z: nat)
    requires Fits(n, x) && Fits(n, y) && Fits(n, z)
    ensures Fits(n, BitXor(n, y, z)) && Fits(n, BitOr(n, x, BitXor(n, y, z)))
    ensures BitOr(n, x, BitXor(n, y, z)) == 0 <==> x == 0 && y == z
  {
    if n > 0 {
      NoBitLeft(n - 1, x / 2, y / 2, z / 2);
      assert BitXor(n, y, z) / 2 == BitXor(n - 1, y / 2, z / 2);
      assert BitOr(n, x, BitXor(n, y, z)) / 2 == BitOr(n - 1, x / 2, BitXor(n - 1, y / 2, z / 2));
    }
  }

  lemma OctetFits(x: Octet)
    ensures Fits(8, x)
  {
    assert Fits(4, x / 16) && Fits(5, x / 8) && Fits(6, x / 4) && Fits(7, x / 2);
  }

  /** Accumulating the exclusive-ors of all octets tells equality. */
  method ConstantTimeEqual(a: seq<Octet>, b: seq<Octet>) returns (equal: bool)
    ensures equal <==> a == b
  {
    if |a| != |b| { return false; }
    var out: nat := 0;
    var i := 0;
    while i < |a|
      invariant i <= |a| && Fits(8, out) && (out == 0 <==> a[..i] == b[..i])
    {
      OctetFits(a[i]);
      OctetFits(b[i]);
      NoBitLeft(8, out, a[i], b[i]);
      assert a[..i + 1] == a[..i] + [a[i]] && b[..i + 1] == b[..i] + [b[i]];
      out := BitOr(8, out, BitXor(8, a[i], b[i]));
      i := i + 1;
    }
    assert a[..i] == a && b[..i] == b;
    return out == 0;
  }
}
