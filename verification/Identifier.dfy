/** The identifier that generated code gives to a table, for ASCII names. */
module Identifier {
  import opened Text

  predicate Alnum(c: char) { IsDigit(c) || IsLower(c) || IsUpper(c) }

  predicate Letter(c: char) { IsLower(c) || IsUpper(c) }

  predicate Ascii(s: string) { forall i :: 0 <= i < |s| ==> s[i] as int < 128 }

  function SkipRun(s: string): (r: string)
    ensures |r| <= |s|
  {
    if s != "" && !Alnum(s[0]) then SkipRun(s[1..]) else s
  }

  /** Every run of other characters becomes one underscore. */
  function Collapse(s: string): string
    decreases |s|
  {
    if s == "" then ""
    else if Alnum(s[0]) then [s[0]] + Collapse(s[1..])
    else "_" + Collapse(SkipRun(s[1..]))
  }

  function CutEnd(t: string): string {
    if t != "" && t[|t| - 1] == '_' then t[..|t| - 1] else t
  }

  /** `replace(/^_|_$/g, "")` */
  function TrimUnderscores(s: string): string {
    CutEnd(if s != "" && s[0] == '_' then s[1..] else s)
  }

  /** `replace(/[_-](\w)/g, upper)` */
  function RaiseAfterSeparator(s: string): string {
    if s == "" then ""
    else if (s[0] == '_' || s[0] == '-') && |s| > 1 && IsWord(s[1]) then [UpperChar(s[1])] + RaiseAfterSeparator(s[2..])
    else [s[0]] + RaiseAfterSeparator(s[1..])
  }

  function ToPascalCase(s: string): string {
    var t := RaiseAfterSeparator(s);
    if t != "" && IsWord(t[0]) then [UpperChar(t[0])] + t[1..] else t
  }

  /** Singular: one trailing "s" goes. */
  function StripS(s: string): string {
    if s != "" && s[|s| - 1] == 's' then s[..|s| - 1] else s
  }

  function Stem(s: string): string { StripS(ToPascalCase(TrimUnderscores(Collapse(s)))) }

  function ToIdentifier(s: string): string {
    var stem := Stem(s);
    if stem != "" && Letter(stem[0]) then stem else if stem != "" then "T" + stem else "Record"
  }

  // ---------- what survives ----------

  /** The letters and digits of a name, in capitals. */
  function Core(s: string): string {
    if s == "" then "" else if Alnum(s[0]) then [UpperChar(s[0])] + Core(s[1..]) else Core(s[1..])
  }

  predicate AllAlnum(s: string) { s == "" || (Alnum(s[0]) && AllAlnum(s[1..])) }

  /** Letters and digits with single underscores between them. */
  predicate Separated(s: string) {
    s == "" || ((Alnum(s[0]) || (s[0] == '_' && |s| > 1 && Alnum(s[1]))) && Separated(s[1..]))
  }

  /** As before, perhaps with an underscore at the end. */
  predicate Collapsed(s: string) {
    s == "" || s == "_" || ((Alnum(s[0]) || (s[0] == '_' && |s| > 1 && Alnum(s[1]))) && Collapsed(s[1..]))
  }

  lemma {:induction false} CoreSkip(s: string)
    ensures Core(SkipRun(s)) == Core(s) && (SkipRun(s) != "" ==> Alnum(SkipRun(s)[0]))
  {
    if s != "" && !Alnum(s[0]) { CoreSkip(s[1..]); }
  }

  lemma {:induction false} CollapseIs(s: string)
    ensures Collapsed(Collapse(s)) && Core(Collapse(s)) == Core(s)
    ensures s != "" && Alnum(s[0]) ==> Collapse(s) != "" && Collapse(s)[0] == s[0]
    decreases |s|
  {
    if s != "" {
      if Alnum(s[0]) {
        CollapseIs(s[1..]);
        Cons(s[0], Collapse(s[1..]));
      } else {
        var rest := SkipRun(s[1..]);
        CoreSkip(s[1..]);
        CollapseIs(rest);
        Cons('_', Collapse(rest));
        if rest == "" { assert "_" + Collapse(rest) == "_"; }
      }
    }
  }

  lemma {:induction false} CutEndIs(t: string)
    requires Collapsed(t) && t != "_"
    ensures Separated(CutEnd(t)) && Core(CutEnd(t)) == Core(t)
    ensures t != "" ==> CutEnd(t) != "" && CutEnd(t)[0] == t[0]
  {
    if t != "" {
      if t[1..] == "_" {
        assert t == [t[0]] + "_" && CutEnd(t) == [t[0]];
        assert Core("_") == Core("") by { assert "_"[1..] == ""; }
      } else if t[1..] == "" {
        assert CutEnd(t) == t;
      } else {
        CutEndIs(t[1..]);
        assert CutEnd(t)[1..] == CutEnd(t[1..]) && CutEnd(t)[0] == t[0];
      }
    }
  }

  lemma TrimUnderscoresIs(s: string)
    requires Collapsed(s)
    ensures Separated(TrimUnderscores(s)) && Core(TrimUnderscores(s)) == Core(s)
    ensures TrimUnderscores(s) != "" ==> Alnum(TrimUnderscores(s)[0])
  {
    if s != "" && s[0] == '_' {
      CutEndIs(s[1..]);
    } else {
      CutEndIs(s);
    }
  }

  /** Raising keeps the letters and digits, up to case, and removes the underscores. */
  lemma {:induction false} RaiseIs(s: string)
    requires Separated(s)
    ensures AllAlnum(RaiseAfterSeparator(s)) && Core(RaiseAfterSeparator(s)) == Core(s)
    decreases |s|
  {
    if s != "" {
      if s[0] == '_' {
        assert s[1..][1..] == s[2..] && s[1..][0] == s[1];
        RaiseIs(s[2..]);
        Cons(UpperChar(s[1]), RaiseAfterSeparator(s[2..]));
      } else {
        RaiseIs(s[1..]);
        Cons(s[0], RaiseAfterSeparator(s[1..]));
      }
    }
  }

  lemma {:induction false} CoreEmptyIff(s: string)
    ensures Core(s) == "" <==> forall i :: 0 <= i < |s| ==> !Alnum(s[i])
  {
    if s != "" {
      CoreEmptyIff(s[1..]);
      if Core(s) == "" {
        forall i | 0 <= i < |s| ensures !Alnum(s[i]) { if i > 0 { assert s[1..][i - 1] == s[i]; } }
      }
    }
  }

  lemma {:induction false} CoreLength(p: string)
    requires AllAlnum(p)
    ensures |Core(p)| == |p|
  {
    if p != "" { CoreLength(p[1..]); }
  }

  /** The identifier before the plural is cut: the letters and digits of the name, in order and up to
      case, starting with no small letter. */
  lemma PascalKeeps(s: string, p: string)
    requires p == ToPascalCase(TrimUnderscores(Collapse(s)))
    ensures AllAlnum(p) && Core(p) == Core(s) && (p != "" ==> !IsLower(p[0]))
  {
    CollapseIs(s);
    var t := TrimUnderscores(Collapse(s));
    TrimUnderscoresIs(Collapse(s));
    RaiseIs(t);
    var r := RaiseAfterSeparator(t);
    if r != "" { Cons(UpperChar(r[0]), r[1..]); }
  }

  lemma {:induction false} CutS(p: string)
    requires AllAlnum(p) && p != "" && p[|p| - 1] == 's'
    ensures AllAlnum(p[..|p| - 1]) && Core(p) == Core(p[..|p| - 1]) + "S"
  {
    if |p| == 1 {
      assert p == "s" && p[1..] == "" && p[..0] == "";
    } else {
      CutS(p[1..]);
      assert p[1..][..|p| - 2] == p[..|p| - 1][1..] && p[..|p| - 1][0] == p[0];
      Regroup([UpperChar(p[0])], Core(p[1..][..|p| - 2]), "S");
    }
  }

  /** For every name, `toIdentifier` gives a letter followed by letters and digits, takes the fallback
      exactly when the name has no letter or digit, and otherwise keeps all its letters and digits up to
      case, but for one trailing "s", with a "T" in front of a digit. */
  lemma IdentifierIs(s: string)
    requires Ascii(s)
    ensures var r := ToIdentifier(s); r != "" && Letter(r[0]) && AllAlnum(r)
    ensures Stem(s) == "" <==> forall i :: 0 <= i < |s| ==> !Alnum(s[i])
    ensures Core(Stem(s)) == Core(s) || Core(Stem(s)) + "S" == Core(s)
  {
    var p := ToPascalCase(TrimUnderscores(Collapse(s)));
    PascalKeeps(s, p);
    CoreEmptyIff(s);
    CoreLength(p);
    if p != "" && p[|p| - 1] == 's' { CutS(p); }
    RecordIsAlnum();
    Cons('T', Stem(s));
  }

  lemma RecordIsAlnum()
    ensures AllAlnum("Record") && Letter("Record"[0])
  {
    assert "Record"[1..] == "ecord" && "ecord"[1..] == "cord" && "cord"[1..] == "ord" && "ord"[1..] == "rd" &&
        "rd"[1..] == "d";
  }
}
