/**
 Text as the protocol uses it: decimal and hexadecimal numbers, fields between spaces, lines
 ending in a carriage return.
 */
module Text {
  import opened Common

  predicate IsDigit(c: char) { '0' <= c <= '9' }

  function Digit(d: nat): (c: char)
    requires d < 10
    ensures IsDigit(c) && c as int == '0' as int + d
  {
    ('0' as int + d) as char
  }

  /** n in decimal. */
  function Dec(n: nat): (s: string)
    ensures |s| >= 1 && forall c :: c in s ==> IsDigit(c)
  {
    if n < 10 then [Digit(n)] else Dec(n / 10) + [Digit(n % 10)]
  }

  predicate AllDigits(s: string) {
    forall i :: 0 <= i < |s| ==> IsDigit(s[i])
  }

  function FromDigits(s: string): (n: nat)
    requires AllDigits(s)
  {
    if s == [] then 0 else 10 * FromDigits(s[..|s| - 1]) + (s[|s| - 1] as int - '0' as int)
  }

  const MAX_INT: nat := 0x7fff_ffff_ffff_ffff
  const MIN_INT: int := -0x8000_0000_0000_0000

  /** A decimal number with an optional sign. */
  function Signed(s: string): (v: Option<int>) {
    if s == [] then None
    else
      var t := if s[0] == '-' || s[0] == '+' then s[1..] else s;
      if t == [] || !AllDigits(t) then None
      else
        var n: int := FromDigits(t);
        Some(if s[0] == '-' then -n else n)
  }

  /** A number of 64 bits; nothing if it is malformed or too large. */
  function Atoi(s: string): (v: Option<int>) {
    match Signed(s)
    case None => None
    case Some(n) => if MIN_INT <= n <= MAX_INT then Some(n) else None
  }

  /** The number read when the error is ignored: 0 for malformed text, the nearest there is for a large one. */
  function Number(s: string): (n: int) {
    match Signed(s)
    case None => 0
    case Some(n) => if n > MAX_INT then MAX_INT else if n < MIN_INT then MIN_INT else n
  }

  lemma {:induction false} FromDec(n: nat)
    ensures AllDigits(Dec(n)) && FromDigits(Dec(n)) == n
    decreases n
  {
    if n < 10 {
    } else {
      FromDec(n / 10);
      assert Dec(n)[..|Dec(n)| - 1] == Dec(n / 10);
    }
  }

  /** A printed number reads back. */
  lemma AtoiDec(n: nat)
    requires n <= MAX_INT
    ensures Atoi(Dec(n)) == Some(n as int) && Number(Dec(n)) == n
  {
    FromDec(n);
    assert Dec(n)[0] in Dec(n);
  }

  function HexDigit(d: nat): (c: char)
    requires d < 16
  {
    if d < 10 then ('0' as int + d) as char else ('A' as int + d - 10) as char
  }

  function HexValue(c: char): (v: Option<nat>)
    ensures v.Some? ==> v.value < 16
  {
    if '0' <= c <= '9' then Some(c as int - '0' as int)
    else if 'a' <= c <= 'f' then Some(c as int - 'a' as int + 10)
    else if 'A' <= c <= 'F' then Some(c as int - 'A' as int + 10)
    else None
  }

  /** Two upper-case hexadecimal digits. */
  function Hex2(v: nat): (s: string)
    requires v < 256
    ensures |s| == 2
  {
    [HexDigit(v / 16), HexDigit(v % 16)]
  }

  /** The digits are those of the usual table, the high one first. */
  lemma Hex2Is(v: nat)
    requires v < 256
    ensures Hex2(v) == ["0123456789ABCDEF"[v / 16], "0123456789ABCDEF"[v % 16]]
  {
  }

  function FromHex(s: string): (v: Option<nat>) {
    if s == [] then Some(0)
    else
      var (h, d) := (FromHex(s[..|s| - 1]), HexValue(s[|s| - 1]));
      if h.None? || d.None? then None else Some(16 * h.value + d.value)
  }

  /** A hexadecimal number with an optional sign; malformed text counts as 0. */
  function ParseHex(s: string): (v: int) {
    var t := if s != [] && (s[0] == '-' || s[0] == '+') then s[1..] else s;
    if t == [] then 0
    else
      match FromHex(t)
      case None => 0
      case Some(n) => var m: int := n; if s[0] == '-' then -m else m
  }

  lemma ParseHex2(v: nat)
    requires v < 256
    ensures ParseHex(Hex2(v)) == v
  {
    var s := Hex2(v);
    assert s[..1] == [HexDigit(v / 16)];
    assert FromHex([]) == Some(0);
    assert FromHex(s[..1]) == Some(v / 16) by { assert s[..1][..0] == []; }
  }

  /** The fields between the spaces. */
  function Split(s: string): (fs: seq<string>)
    ensures |fs| >= 1
  {
    if s == [] then [[]]
    else if s[0] == ' ' then [[]] + Split(s[1..])
    else var fs := Split(s[1..]); [[s[0]] + fs[0]] + fs[1..]
  }

  predicate NoSpace(s: string) { ' ' !in s }

  lemma {:induction false} SplitField(f: string, rest: string)
    requires NoSpace(f)
    ensures Split(f + " " + rest) == [f] + Split(rest)
    decreases |f|
  {
    var s := f + " " + rest;
    if f == [] {
      assert s[1..] == rest;
    } else {
      SplitField(f[1..], rest);
      assert s[1..] == f[1..] + " " + rest;
      assert [f[0]] + f[1..] == f;
    }
  }

  lemma {:induction false} SplitLast(f: string)
    requires NoSpace(f)
    ensures Split(f) == [f]
    decreases |f|
  {
    if f == [] {
    } else {
      SplitLast(f[1..]);
      assert [f[0]] + f[1..] == f;
    }
  }

  /** The sum of the character codes. */
  function CharSum(s: string): (n: nat) {
    if s == [] then 0 else CharSum(s[..|s| - 1]) + s[|s| - 1] as int
  }

  lemma CharSumOne(c: char)
    ensures CharSum([c]) == c as int && CharSum([]) == 0
  {
    assert [c][..0] == [];
  }

  lemma {:induction false} CharSumConcat(a: string, b: string)
    ensures CharSum(a + b) == CharSum(a) + CharSum(b)
    decreases |b|
  {
    if b == [] {
      assert a + b == a;
    } else {
      CharSumConcat(a, b[..|b| - 1]);
      assert (a + b)[..|a + b| - 1] == a + b[..|b| - 1];
    }
  }

  predicate IsSpace(c: char) { c == ' ' || c == '\t' || c == '\n' || c == '\r' || c as int == 11 || c as int == 12 }

  function TrimLeft(s: string): (r: string)
    ensures |r| <= |s|
  {
    if s != [] && IsSpace(s[0]) then TrimLeft(s[1..]) else s
  }

  function TrimRight(s: string): (r: string)
    ensures |r| <= |s|
  {
    if s != [] && IsSpace(s[|s| - 1]) then TrimRight(s[..|s| - 1]) else s
  }

  /** The text up to the first carriage return and what follows it, if there is one. */
  function CutLine(s: string): (r: Option<(string, string)>)
    ensures r.Some? ==> |r.value.1| < |s|
  {
    if s == [] then None
    else if s[0] == '\r' then Some(([], s[1..]))
    else
      match CutLine(s[1..])
      case None => None
      case Some((line, rest)) => Some(([s[0]] + line, rest))
  }

  lemma {:induction false} CutFirst(line: string, rest: string)
    requires '\r' !in line
    ensures CutLine(line + "\r" + rest) == Some((line, rest))
    decreases |line|
  {
    var s := line + "\r" + rest;
    if line == [] {
      assert s[1..] == rest;
    } else {
      assert s[1..] == line[1..] + "\r" + rest;
      CutFirst(line[1..], rest);
      assert [line[0]] + line[1..] == line;
    }
  }

  /** A line without the white space and the NULs around it; nothing where the program would stop on a bad index. */
  function Clean(s: string): (r: Option<string>) {
    var t := TrimRight(TrimLeft(s));
    if t == [] then Some([])
    else
      var u := if t[0] as int == 0 then t[1..] else t;
      if u == [] then None
      else if u[|u| - 1] as int != 0 then Some(u)
      else if |u| < 2 then None
      else Some(u[..|u| - 2])
  }

  lemma CleanPlain(s: string)
    requires s != [] && !IsSpace(s[0]) && !IsSpace(s[|s| - 1]) && s[0] as int != 0 && s[|s| - 1] as int != 0
    ensures Clean(s) == Some(s)
  {
  }
}
