/** JavaScript string operations that the modelled components share. */
module Text {

  datatype Option<+T> = None | Some(value: T)

  // ---------- character classes ----------

  /** The characters `trim` removes and `\s` matches (sections 12.2 and 12.3 of ECMA-262). */
  predicate IsSpace(c: char) {
    var n := c as int;
    9 <= n <= 13 || n == 0x20 || n == 0xA0 || n == 0x1680 || 0x2000 <= n <= 0x200A ||
    n == 0x2028 || n == 0x2029 || n == 0x202F || n == 0x205F || n == 0x3000 || n == 0xFEFF
  }

  predicate IsDigit(c: char) { '0' <= c <= '9' }

  predicate IsLower(c: char) { 'a' <= c <= 'z' }

  predicate IsUpper(c: char) { 'A' <= c <= 'Z' }

  /** `\w` without the Unicode flag. */
  predicate IsWord(c: char) { IsDigit(c) || IsLower(c) || IsUpper(c) || c == '_' }

  /** `toUpperCase` on one ASCII character; other characters are left alone. */
  function UpperChar(c: char): char {
    if IsLower(c) then (c as int - 32) as char else c
  }

  function Upper(s: string): (r: string)
    ensures |r| == |s| && forall i :: 0 <= i < |s| ==> r[i] == UpperChar(s[i])
  {
    seq(|s|, i requires 0 <= i < |s| => UpperChar(s[i]))
  }

  /** `^\d+$` */
  predicate AllDigits(s: string) { s != "" && forall i :: 0 <= i < |s| ==> IsDigit(s[i]) }

  // ---------- trim ----------

  function TrimStart(s: string): string {
    if s != "" && IsSpace(s[0]) then TrimStart(s[1..]) else s
  }

  function TrimEnd(s: string): string {
    if s != "" && IsSpace(s[|s| - 1]) then TrimEnd(s[..|s| - 1]) else s
  }

  function Trim(s: string): string { TrimEnd(TrimStart(s)) }

  predicate TrimStable(s: string) {
    s == "" || (!IsSpace(s[0]) && !IsSpace(s[|s| - 1]))
  }

  lemma TrimStartStable(s: string)
    ensures TrimStart(s) == "" || !IsSpace(TrimStart(s)[0])
    ensures forall c :: c in TrimStart(s) ==> c in s
  {}

  lemma TrimEndStable(s: string)
    ensures TrimEnd(s) <= s
    ensures TrimEnd(s) == "" || !IsSpace(TrimEnd(s)[|TrimEnd(s)| - 1])
  {}

  lemma TrimIsStable(s: string)
    ensures TrimStable(Trim(s))
    ensures forall c :: c in Trim(s) ==> c in s
  {
    TrimStartStable(s);
    TrimEndStable(TrimStart(s));
  }

  lemma TrimFixes(s: string)
    requires TrimStable(s)
    ensures Trim(s) == s
  {}

  lemma TrimStartBlank(s: string)
    ensures TrimStart(s) == "" <==> forall c :: c in s ==> IsSpace(c)
  {
    if s != "" && IsSpace(s[0]) {
      TrimStartBlank(s[1..]);
      assert forall c :: c in s <==> c == s[0] || c in s[1..];
    }
  }

  // ---------- split and join ----------

  /** `s.split(sep)` for a one-character separator. */
  function Split(s: string, sep: char): (r: seq<string>)
    ensures |r| >= 1
  {
    if s == "" then [""]
    else
      var r := Split(s[1..], sep);
      if s[0] == sep then [""] + r else [[s[0]] + r[0]] + r[1..]
  }

  function Join(parts: seq<string>, sep: string): string {
    if |parts| == 0 then ""
    else if |parts| == 1 then parts[0]
    else parts[0] + sep + Join(parts[1..], sep)
  }

  lemma SplitPieces(s: string, sep: char)
    ensures forall p :: p in Split(s, sep) ==> sep !in p
  {}

  lemma SplitNone(s: string, sep: char)
    requires sep !in s
    ensures Split(s, sep) == [s]
  {
    if s != "" {
      SplitNone(s[1..], sep);
      assert [s[0]] + s[1..] == s;
    }
  }

  lemma SplitAt(a: string, b: string, sep: char)
    requires sep !in a
    ensures Split(a + [sep] + b, sep) == [a] + Split(b, sep)
  {
    var s := a + [sep] + b;
    if a == "" {
      assert s[1..] == b;
    } else {
      SplitAt(a[1..], b, sep);
      assert s[1..] == a[1..] + [sep] + b;
      assert [a[0]] + a[1..] == a;
    }
  }

  lemma SplitJoin(parts: seq<string>, sep: char)
    requires parts != []
    requires forall p :: p in parts ==> sep !in p
    ensures Split(Join(parts, [sep]), sep) == parts
  {
    if |parts| == 1 {
      SplitNone(parts[0], sep);
    } else {
      SplitJoin(parts[1..], sep);
      SplitAt(parts[0], Join(parts[1..], [sep]), sep);
      assert [parts[0]] + parts[1..] == parts;
    }
  }

  lemma JoinSplit(s: string, sep: char)
    ensures Join(Split(s, sep), [sep]) == s
  {
    if s != "" {
      JoinSplit(s[1..], sep);
      var r := Split(s[1..], sep);
      if s[0] == sep {
        assert ([""] + r)[1..] == r;
      } else {
        assert ([[s[0]] + r[0]] + r[1..])[1..] == r[1..];
        assert [s[0]] + Join(r, [sep]) == Join([[s[0]] + r[0]] + r[1..], [sep]);
      }
    }
  }

  lemma JoinAppend(parts: seq<string>, last: string, sep: string)
    ensures Join(parts + [last], sep) == if parts == [] then last else Join(parts, sep) + sep + last
  {
    if |parts| > 1 {
      JoinAppend(parts[1..], last, sep);
      assert (parts + [last])[1..] == parts[1..] + [last];
    }
  }

  // ---------- decimal digits ----------

  function DigitChar(d: int): char
    requires 0 <= d < 10
  { ('0' as int + d) as char }

  function NatText(n: nat): (r: string)
    ensures AllDigits(r)
  {
    if n < 10 then [DigitChar(n)] else NatText(n / 10) + [DigitChar(n % 10)]
  }

  /** `String(n)` of an integer. */
  function IntText(n: int): string { if n < 0 then "-" + NatText(-n) else NatText(n) }

  function NatValue(s: string): nat
    requires forall i :: 0 <= i < |s| ==> IsDigit(s[i])
  {
    if s == "" then 0
    else
      assert IsDigit(s[|s| - 1]);
      10 * NatValue(s[..|s| - 1]) + (s[|s| - 1] as int - '0' as int)
  }

  lemma {:induction false} NatTextReadsBack(n: nat)
    ensures NatValue(NatText(n)) == n
  {
    if n >= 10 {
      NatTextReadsBack(n / 10);
      var t := NatText(n);
      assert t[..|t| - 1] == NatText(n / 10);
    } else {
      assert NatText(n)[..0] == "";
    }
  }

  lemma NatTextLength(n: nat)
    ensures n < 10 ==> |NatText(n)| == 1
    ensures 10 <= n < 100 ==> |NatText(n)| == 2
    ensures 1000 <= n < 10000 ==> |NatText(n)| == 4
  {
    if 1000 <= n < 10000 {
      assert |NatText(n / 10)| == 3 by {
        assert 100 <= n / 10 < 1000;
        assert 10 <= n / 10 / 10 < 100;
        NatTextLength(n / 10 / 10);
      }
    }
  }

  lemma IntTextInjective(a: int, b: int)
    requires IntText(a) == IntText(b)
    ensures a == b
  {
    assert (a < 0 <==> IntText(a)[0] == '-') && (b < 0 <==> IntText(b)[0] == '-');
    if a < 0 && b < 0 {
      assert IntText(a)[1..] == NatText(-a) && IntText(b)[1..] == NatText(-b);
      NatTextReadsBack(-a);
      NatTextReadsBack(-b);
    } else {
      NatTextReadsBack(a);
      NatTextReadsBack(b);
    }
  }

  /** `String(n).padStart(2, "0")` */
  function Pad2(n: nat): string { if n < 10 then "0" + NatText(n) else NatText(n) }

  lemma Pad2ReadsBack(n: nat)
    requires n < 100
    ensures |Pad2(n)| == 2 && AllDigits(Pad2(n)) && NatValue(Pad2(n)) == n
  {
    NatTextLength(n);
    NatTextReadsBack(n);
    if n < 10 {
      var t := Pad2(n);
      assert t[..1] == "0" && t[..1][..0] == "";
      assert NatValue("0") == 0;
      assert NatText(n)[..0] == "";
    }
  }

  /** A number's digits without a leading zero are its text. */
  lemma {:induction false} DigitsAreText(s: string)
    requires AllDigits(s) && (|s| > 1 ==> s[0] != '0')
    ensures NatText(NatValue(s)) == s && (|s| > 1 ==> NatValue(s) >= 10)
  {
    var front, last := s[..|s| - 1], s[|s| - 1];
    assert IsDigit(last) && front + [last] == s;
    if front != "" {
      assert AllDigits(front) && front[0] == s[0];
      DigitsAreText(front);
      assert NatValue(front) >= 1 by {
        if |front| == 1 { assert front[..0] == "" && NatValue(front) == front[0] as int - '0' as int; }
      }
    }
  }

  lemma Pad2OfDigits(s: string)
    requires AllDigits(s) && |s| == 2
    ensures Pad2(NatValue(s)) == s && NatValue(s) < 100
  {
    var front, last := s[..1], s[1];
    assert IsDigit(s[0]) && IsDigit(last) && front[..0] == "" && s[..|s| - 1] == front;
    assert NatValue(front) == s[0] as int - '0' as int;
    if s[0] == '0' {
      assert NatText(NatValue(s)) == [last] && s == "0" + [last];
    } else {
      DigitsAreText(s);
    }
  }

  // ---------- search and replacement ----------

  /** `s.replace(/c/g, by)` for one character. */
  function ReplaceAll(s: string, c: char, w: string): string {
    if s == "" then "" else (if s[0] == c then w else [s[0]]) + ReplaceAll(s[1..], c, w)
  }

  predicate StartsWith(s: string, p: string) { |p| <= |s| && s[..|p|] == p }

  predicate EndsWith(s: string, p: string) { |p| <= |s| && s[|s| - |p|..] == p }

  /** `s.includes(p)` */
  predicate Includes(s: string, p: string) {
    StartsWith(s, p) || (s != "" && Includes(s[1..], p))
  }

  /** The text after an expected prefix. */
  function Expect(s: string, prefix: string): Option<string> {
    if StartsWith(s, prefix) then Some(s[|prefix|..]) else None
  }

  lemma Expected(prefix: string, rest: string)
    ensures Expect(prefix + rest, prefix) == Some(rest)
  {}

  lemma NotExpected(s: string, prefix: string, i: nat)
    requires i < |s| && i < |prefix| && s[i] != prefix[i]
    ensures Expect(s, prefix) == None
  {}

  // ---------- sequences ----------

  lemma Regroup<T>(a: seq<T>, b: seq<T>, c: seq<T>)
    ensures a + b + c == a + (b + c)
  {}

  lemma Regroup4(a: string, b: string, c: string, d: string)
    ensures a + b + c + d == a + (b + c + d)
  {}

  lemma Nest<T>(a: seq<T>, b: seq<T>, c: seq<T>, d: seq<T>, e: seq<T>)
    ensures a + b + c + d == a + (b + (c + d)) && a + b + c + d + e == a + (b + (c + (d + e)))
  {
    Regroup(a, b, c);
    Regroup(a, b + c, d);
    Regroup(b, c, d);
    Regroup(a, b + (c + d), e);
    Regroup(b, c + d, e);
    Regroup(c, d, e);
  }

  lemma Cons(c: char, s: string)
    ensures ([c] + s)[0] == c && ([c] + s)[1..] == s && |[c] + s| == |s| + 1
  {}

  lemma Cons2(c: char, d: char, s: string)
    ensures var t := [c, d] + s; |t| == |s| + 2 && t[0] == c && t[1] == d && t[2..] == s
  {}

  lemma Uncons<T>(s: seq<T>)
    requires s != []
    ensures [s[0]] + s[1..] == s
  {}

  lemma Unsnoc<T>(s: seq<T>)
    requires s != []
    ensures s[..|s| - 1] + [s[|s| - 1]] == s
  {}

  lemma Drop<T>(s: seq<T>, at: nat, n: nat)
    requires at + n <= |s|
    ensures s[at..][n..] == s[at + n..]
  {}

  lemma PrefixSnoc<T>(xs: seq<T>, i: nat)
    requires i < |xs|
    ensures xs[..i + 1] == xs[..i] + [xs[i]]
  {}

  function Map<A, B>(f: A -> B, xs: seq<A>): (r: seq<B>)
    ensures |r| == |xs|
    ensures forall i :: 0 <= i < |xs| ==> r[i] == f(xs[i])
  {
    seq(|xs|, i requires 0 <= i < |xs| => f(xs[i]))
  }

  lemma MapTail<A, B>(f: A -> B, xs: seq<A>)
    requires xs != []
    ensures Map(f, xs)[0] == f(xs[0]) && Map(f, xs)[1..] == Map(f, xs[1..])
  {}

  function Filter<A>(p: A -> bool, xs: seq<A>): (r: seq<A>)
    ensures forall i :: 0 <= i < |r| ==> r[i] in xs && p(r[i])
    ensures forall i :: 0 <= i < |xs| && p(xs[i]) ==> xs[i] in r
    ensures |r| <= |xs|
  {
    if xs == [] then []
    else Filter(p, xs[..|xs| - 1]) + (if p(xs[|xs| - 1]) then [xs[|xs| - 1]] else [])
  }

  function Flatten<A>(xss: seq<seq<A>>): seq<A> {
    if xss == [] then [] else xss[0] + Flatten(xss[1..])
  }

  lemma FlattenAppend<A>(xss: seq<seq<A>>, last: seq<A>)
    ensures Flatten(xss + [last]) == Flatten(xss) + last
  {
    if xss != [] {
      FlattenAppend(xss[1..], last);
      assert (xss + [last])[1..] == xss[1..] + [last];
    }
  }
}
