/** The optional value used wherever the program returns "a value or an error". */
module Options {
  datatype Option<+T> = None | Some(value: T)
}

/**
 The string operations of the Go standard library that the agent relies on.
 A Go string is modelled as the sequence of its characters; white space is
 Unicode White_Space, letter case is folded for ASCII letters only.
 */
module Text {
  import opened Options

  const MIN_INT64: int := -0x8000_0000_0000_0000
  const MAX_INT64: int := 0x7fff_ffff_ffff_ffff

  /** Go's `int` on the 64-bit targets of the agent. */
  type int64 = x: int | MIN_INT64 <= x <= MAX_INT64

  // ---- characters -------------------------------------------------------

  predicate IsSpace(c: char) {
    var k := c as int;
    9 <= k <= 13 || k == 32 || k == 0x85 || k == 0xA0 || k == 0x1680 || 0x2000 <= k <= 0x200A ||
    k == 0x2028 || k == 0x2029 || k == 0x202F || k == 0x205F || k == 0x3000
  }

  predicate IsQuote(c: char) {
    c == '"' || c == '\''
  }

  predicate IsDigit(c: char) {
    '0' <= c <= '9'
  }

  function LowerChar(c: char): char {
    if 'A' <= c <= 'Z' then ((c as int) + 32) as char else c
  }

  function Lower(s: string): (r: string)
    ensures |r| == |s|
    ensures forall i :: 0 <= i < |s| ==> r[i] == LowerChar(s[i])
  {
    seq(|s|, i requires 0 <= i < |s| => LowerChar(s[i]))
  }

  lemma LowerTwice(s: string)
    ensures Lower(Lower(s)) == Lower(s)
  {
  }

  // ---- trimming ---------------------------------------------------------

  function TrimLeft(s: string, cut: char -> bool): string {
    if s != "" && cut(s[0]) then TrimLeft(s[1..], cut) else s
  }

  function TrimRight(s: string, cut: char -> bool): string {
    if s != "" && cut(s[|s| - 1]) then TrimRight(s[..|s| - 1], cut) else s
  }

  /** `strings.TrimSpace` */
  function Trim(s: string): string {
    TrimRight(TrimLeft(s, IsSpace), IsSpace)
  }

  /** `strings.Trim(s, "\"'")` */
  function TrimQuotes(s: string): string {
    TrimRight(TrimLeft(s, IsQuote), IsQuote)
  }

  predicate CleanEdges(s: string, cut: char -> bool) {
    s != "" ==> !cut(s[0]) && !cut(s[|s| - 1])
  }

  /** A suffix after a character that is not cut is trimmed on its own. */
  lemma {:induction false} TrimRightAppend(p: string, v: string, cut: char -> bool)
    requires p != "" && !cut(p[|p| - 1])
    ensures TrimRight(p + v, cut) == p + TrimRight(v, cut)
  {
    if v == "" {
      assert p + v == p;
    } else {
      assert (p + v)[|p + v| - 1] == v[|v| - 1];
      if cut(v[|v| - 1]) {
        assert (p + v)[..|p + v| - 1] == p + v[..|v| - 1];
        TrimRightAppend(p, v[..|v| - 1], cut);
      }
    }
  }

  lemma {:induction false} TrimRightTwice(s: string, cut: char -> bool)
    ensures TrimRight(TrimRight(s, cut), cut) == TrimRight(s, cut)
  {
    if s != "" && cut(s[|s| - 1]) {
      TrimRightTwice(s[..|s| - 1], cut);
    }
  }

  lemma {:induction false} TrimSidesCommute(s: string, cut: char -> bool)
    ensures TrimLeft(TrimRight(s, cut), cut) == TrimRight(TrimLeft(s, cut), cut)
  {
    if s != "" && cut(s[|s| - 1]) {
      var r := s[..|s| - 1];
      TrimSidesCommute(r, cut);
      TrimLeftInit(s, cut);
    } else if s != "" {
      TrimLeftKeepsLast(s, cut);
    }
  }

  lemma {:induction false} TrimLeftKeepsLast(s: string, cut: char -> bool)
    requires s != "" && !cut(s[|s| - 1])
    ensures TrimLeft(s, cut) != "" && !cut(TrimLeft(s, cut)[|TrimLeft(s, cut)| - 1])
  {
    if cut(s[0]) {
      TrimLeftKeepsLast(s[1..], cut);
    }
  }

  /** Dropping a trailing cut character does not matter before the right-hand trim. */
  lemma {:induction false} TrimLeftInit(s: string, cut: char -> bool)
    requires s != "" && cut(s[|s| - 1])
    ensures TrimRight(TrimLeft(s, cut), cut) == TrimRight(TrimLeft(s[..|s| - 1], cut), cut)
  {
    var r := s[..|s| - 1];
    if |s| == 1 {
      assert s[1..] == "" && r == "";
    } else if cut(s[0]) {
      assert s[1..][..|s| - 2] == r[1..];
      TrimLeftInit(s[1..], cut);
    }
  }

  /** `Trim(Trim-right(v)) = Trim(v)`, as when a trimmed line is cut at '='. */
  lemma TrimAfterTrimRight(v: string)
    ensures Trim(TrimRight(v, IsSpace)) == Trim(v)
  {
    TrimSidesCommute(v, IsSpace);
    TrimRightTwice(TrimLeft(v, IsSpace), IsSpace);
  }

  lemma TrimIdentity(s: string, cut: char -> bool)
    requires CleanEdges(s, cut)
    ensures TrimLeft(s, cut) == s == TrimRight(s, cut)
  {
  }

  lemma TrimClean(s: string)
    requires CleanEdges(s, IsSpace)
    ensures Trim(s) == s
  {
  }

  /** Trimming `KEY=value` keeps the key and trims only the right of the value. */
  lemma TrimKeyed(p: string, v: string)
    requires p != "" && CleanEdges(p, IsSpace)
    ensures Trim(p + v) == p + TrimRight(v, IsSpace)
  {
    assert (p + v)[0] == p[0];
    TrimRightAppend(p, v, IsSpace);
  }

  // ---- searching and splitting -----------------------------------------

  predicate HasPrefix(s: string, p: string) {
    |p| <= |s| && s[..|p|] == p
  }

  predicate HasSuffix(s: string, p: string) {
    |p| <= |s| && s[|s| - |p|..] == p
  }

  predicate Contains(s: string, p: string) {
    exists i | 0 <= i <= |s| :: HasPrefix(s[i..], p)
  }

  function TrimPrefix(s: string, p: string): string {
    if HasPrefix(s, p) then s[|p|..] else s
  }

  function TrimSuffix(s: string, p: string): string {
    if HasSuffix(s, p) then s[..|s| - |p|] else s
  }

  /** `strings.Split(s, c)` for a one-character separator. */
  function Split(s: string, c: char): (r: seq<string>)
    ensures r != []
  {
    if s == "" then [""]
    else
      var r := Split(s[1..], c);
      if s[0] == c then [""] + r else [[s[0]] + r[0]] + r[1..]
  }

  /** `strings.SplitN(s, c, 2)` when it has two parts. */
  function Cut(s: string, c: char): Option<(string, string)> {
    if s == "" then None
    else if s[0] == c then Some(("", s[1..]))
    else match Cut(s[1..], c)
         case None => None
         case Some(p) => Some(([s[0]] + p.0, p.1))
  }

  function Join(lines: seq<string>, c: char): string {
    if lines == [] then "" else if |lines| == 1 then lines[0] else lines[0] + [c] + Join(lines[1..], c)
  }

  lemma {:induction false} SplitPlain(s: string, c: char)
    requires c !in s
    ensures Split(s, c) == [s]
  {
    if s != "" {
      SplitPlain(s[1..], c);
      assert [s[0]] + s[1..] == s;
    }
  }

  lemma {:induction false} SplitAppend(a: string, c: char, b: string)
    ensures Split(a + [c] + b, c) == Split(a, c) + Split(b, c)
  {
    var s := a + [c] + b;
    if a == "" {
      assert s[1..] == b;
    } else {
      assert s[1..] == a[1..] + [c] + b;
      SplitAppend(a[1..], c, b);
    }
  }

  lemma {:induction false} SplitJoin(lines: seq<string>, c: char)
    requires lines != []
    requires forall l :: l in lines ==> c !in l
    ensures Split(Join(lines, c), c) == lines
  {
    SplitPlain(lines[0], c);
    if |lines| > 1 {
      SplitJoin(lines[1..], c);
      SplitAppend(lines[0], c, Join(lines[1..], c));
    }
  }

  lemma {:induction false} JoinAppend(a: seq<string>, b: seq<string>, c: char)
    requires a != [] && b != []
    ensures Join(a + b, c) == Join(a, c) + [c] + Join(b, c)
  {
    if |a| == 1 {
      assert (a + b)[1..] == b;
    } else {
      assert (a + b)[1..] == a[1..] + b;
      JoinAppend(a[1..], b, c);
      assert Join(a + b, c) == a[0] + [c] + (Join(a[1..], c) + [c] + Join(b, c));
      assert Join(a, c) == a[0] + [c] + Join(a[1..], c);
    }
  }

  /** Joined line groups are split group by group, line breaks inside a line included. */
  lemma SplitJoined(a: seq<string>, b: seq<string>, c: char)
    requires a != [] && b != []
    ensures Split(Join(a + b, c), c) == Split(Join(a, c), c) + Split(Join(b, c), c)
  {
    JoinAppend(a, b, c);
    SplitAppend(Join(a, c), c, Join(b, c));
  }

  /** The parts of a split put back together give the string. */
  lemma {:induction false} JoinSplit(s: string, c: char)
    ensures Join(Split(s, c), c) == s
  {
    if s != "" {
      JoinSplit(s[1..], c);
      var r := Split(s[1..], c);
      if s[0] == c {
        assert ([""] + r)[1..] == r;
      } else {
        assert ([[s[0]] + r[0]] + r[1..])[1..] == r[1..];
      }
    }
  }

  /** No part of a split contains the separator. */
  lemma {:induction false} SplitParts(s: string, c: char)
    ensures forall p :: p in Split(s, c) ==> c !in p
    ensures |s| >= |Split(s, c)| - 1
    ensures forall p, x :: p in Split(s, c) && x in p ==> x in s
  {
    if s != "" {
      SplitParts(s[1..], c);
      var r := Split(s[1..], c);
      forall p | p in Split(s, c)
        ensures c !in p
        ensures forall x :: x in p ==> x in s
      {
        if s[0] != c && p == [s[0]] + r[0] {
          assert r[0] in r;
        } else if p != "" {
          assert p in r;
        }
      }
    }
  }

  lemma {:induction false} CutKeyed(key: string, c: char, v: string)
    requires c !in key
    ensures Cut(key + [c] + v, c) == Some((key, v))
  {
    var s := key + [c] + v;
    if key == "" {
      assert s[1..] == v;
    } else {
      assert s[1..] == key[1..] + [c] + v;
      CutKeyed(key[1..], c, v);
      assert [key[0]] + key[1..] == key;
    }
  }

  lemma {:induction false} CutParts(s: string, c: char)
    ensures match Cut(s, c) case None => c !in s case Some(p) => s == p.0 + [c] + p.1 && c !in p.0
  {
    if s != "" && s[0] != c {
      CutParts(s[1..], c);
    }
  }

  /** Two parts on splitting: exactly one separator. */
  lemma TwoParts(s: string, c: char)
    requires |Split(s, c)| == 2
    ensures var p := Split(s, c); s == p[0] + [c] + p[1] && c !in p[0] && c !in p[1]
  {
    JoinSplit(s, c);
    SplitParts(s, c);
    var p := Split(s, c);
    assert p[0] in p && p[1] in p;
    assert Join(p[1..], c) == p[1];
  }

  // ---- strings.Fields ---------------------------------------------------

  /** The maximal runs of non-space characters, in order. */
  function Fields(s: string): seq<string>
    decreases |s|
  {
    if s == "" then []
    else if IsSpace(s[0]) then Fields(s[1..])
    else var w := Word(s); [w] + Fields(s[|w|..])
  }

  function Word(s: string): (w: string)
    ensures w <= s
    ensures s != "" && !IsSpace(s[0]) ==> w != ""
  {
    if s == "" || IsSpace(s[0]) then "" else [s[0]] + Word(s[1..])
  }

  lemma {:induction false} WordOf(w: string, rest: string)
    requires forall x :: x in w ==> !IsSpace(x)
    requires rest == "" || IsSpace(rest[0])
    ensures Word(w + rest) == w
  {
    if w != "" {
      assert (w + rest)[1..] == w[1..] + rest;
      WordOf(w[1..], rest);
      assert [w[0]] + w[1..] == w;
    } else {
      assert w + rest == rest;
    }
  }

  lemma FieldsCons(w: string, rest: string)
    requires w != "" && forall x :: x in w ==> !IsSpace(x)
    ensures Fields(w + " " + rest) == [w] + Fields(rest)
    ensures Fields(w) == [w]
  {
    WordOf(w, " " + rest);
    WordOf(w, "");
    var s := w + " " + rest;
    assert s == w + (" " + rest) && s[|w|..] == " " + rest && (" " + rest)[1..] == rest;
    assert w + "" == w && w[|w|..] == "";
    assert s[0] == w[0] && w[0] in w;
    assert Fields(s) == [Word(s)] + Fields(s[|Word(s)|..]);
  }

  // ---- decimal numbers --------------------------------------------------

  function DigitChar(d: nat): (c: char)
    requires d < 10
    ensures IsDigit(c) && DigitValue(c) == d
  {
    ((d + 48) as char)
  }

  function DigitValue(c: char): (d: nat)
    requires IsDigit(c)
    ensures d < 10
  {
    (c as int) - 48
  }

  predicate AllDigits(s: string) {
    forall c :: c in s ==> IsDigit(c)
  }

  /** The value of a digit string; leading zeros allowed. */
  function Value(s: string): nat
    requires AllDigits(s)
  {
    if s == "" then 0 else 10 * Value(s[..|s| - 1]) + DigitValue(s[|s| - 1])
  }

  function Digits(n: nat): (s: string)
    ensures s != "" && AllDigits(s)
  {
    if n < 10 then [DigitChar(n)] else Digits(n / 10) + [DigitChar(n % 10)]
  }

  function Itoa(n: int): string {
    if n < 0 then "-" + Digits(-n) else Digits(n)
  }

  /** `strconv.Atoi` */
  function Atoi(s: string): Option<int> {
    var body := if s != "" && (s[0] == '-' || s[0] == '+') then s[1..] else s;
    if body == "" || !AllDigits(body) then None
    else
      var n: int := if s[0] == '-' then -(Value(body) as int) else Value(body);
      if MIN_INT64 <= n <= MAX_INT64 then Some(n) else None
  }

  lemma {:induction false} ValueDigits(n: nat)
    ensures Value(Digits(n)) == n
    ensures n > 0 ==> Digits(n)[0] != '0'
  {
    if n >= 10 {
      var s := Digits(n);
      assert s[..|s| - 1] == Digits(n / 10) && s[|s| - 1] == DigitChar(n % 10);
      ValueDigits(n / 10);
    }
  }

  /** A digit string without a superfluous leading zero is what printing its value gives. */
  lemma {:induction false} DigitsValue(s: string)
    requires s != "" && AllDigits(s) && (|s| > 1 ==> s[0] != '0')
    ensures Digits(Value(s)) == s
    ensures |s| > 1 ==> Value(s) >= 10
  {
    if |s| == 1 {
      assert s[..0] == "";
    } else {
      var t := s[..|s| - 1];
      assert forall c :: c in t ==> c in s;
      DigitsValue(t);
      assert Value(t) > 0 by {
        if |t| == 1 { assert t[..0] == ""; assert t[0] == s[0]; }
      }
      var v := Value(s);
      assert v / 10 == Value(t) && v % 10 == DigitValue(s[|s| - 1]);
      assert t + [s[|s| - 1]] == s;
    }
  }

  /** `strconv.Atoi` undoes `%d`. */
  lemma AtoiItoa(n: int64)
    ensures Atoi(Itoa(n)) == Some(n as int)
  {
    if n < 0 {
      ValueDigits(-(n as int));
      assert Itoa(n)[1..] == Digits(-(n as int));
    } else {
      ValueDigits(n);
      var d := Digits(n);
      assert d[0] in d;
      assert IsDigit(d[0]);
    }
  }
}
