/** What the README guard reports, violation by violation, and how it reads names and commands. */
module ReadmeReport {
  import opened Text
  import opened Readme

  // ---------- names and commands ----------

  /** A cell is a bold name exactly if it is that name between two pairs of stars, on one line. */
  lemma BoldIff(cell: string, name: string)
    ensures BoldName(cell) == Some(name) <==>
            cell == "**" + name + "**" && name != "" && forall i :: 0 <= i < |name| ==> !LineEnd(name[i])
  {
    if cell == "**" + name + "**" {
      assert cell[..2] == "**" && cell[|cell| - 2..] == "**" && cell[2..|cell| - 2] == name;
      assert forall i :: 2 <= i < |cell| - 2 ==> cell[i] == name[i - 2];
    } else {
      BoldNameBack(cell);
    }
  }

  lemma BoldNameBack(cell: string)
    ensures BoldName(cell).Some? ==> cell == "**" + BoldName(cell).value + "**"
  {
    if |cell| >= 4 { assert cell == cell[..2] + cell[2..|cell| - 2] + cell[|cell| - 2..]; }
  }

  /** A piece of a cell: text without backticks, then a code span. */
  datatype Piece = Piece(text: string, span: string)

  predicate PieceOk(p: Piece) { '`' !in p.text && '`' !in p.span && p.span != "" }

  function Written(pieces: seq<Piece>, rest: string): string {
    if pieces == [] then rest
    else pieces[0].text + ("`" + (pieces[0].span + ("`" + Written(pieces[1..], rest))))
  }

  function SpansIn(pieces: seq<Piece>): (r: seq<string>)
    ensures |r| == |pieces| && forall i :: 0 <= i < |pieces| ==> r[i] == pieces[i].span
  {
    seq(|pieces|, i requires 0 <= i < |pieces| => pieces[i].span)
  }

  lemma {:induction false} IndexBehind(w: string, c: char, rest: string)
    requires c !in w
    ensures IndexOf(w + [c] + rest, c) == |w|
  {
    var s := w + [c] + rest;
    if w != "" {
      IndexBehind(w[1..], c, rest);
      assert s[0] == w[0] && s[1..] == w[1..] + [c] + rest;
    }
  }

  lemma {:induction false} NoSpans(s: string)
    requires '`' !in s
    ensures Spans(s) == []
  {
    if s != "" { NoSpans(s[1..]); }
  }

  lemma {:induction false} SkipsText(text: string, rest: string)
    requires '`' !in text
    ensures Spans(text + rest) == Spans(rest)
  {
    if text == "" {
      assert text + rest == rest;
    } else {
      SkipsText(text[1..], rest);
      assert (text + rest)[0] == text[0] && (text + rest)[1..] == text[1..] + rest;
    }
  }

  lemma TakesSpan(span: string, rest: string)
    requires '`' !in span && span != ""
    ensures Spans("`" + (span + ("`" + rest))) == [span] + Spans(rest)
  {
    var s := "`" + (span + ("`" + rest));
    assert s[0] == '`' && s[1..] == span + ['`'] + rest;
    IndexBehind(span, '`', rest);
    var n := |span|;
    assert s[1..n + 1] == span && s[n + 2..] == rest;
  }

  /** The code spans of a cell are recovered, in order, whatever text stands around them. */
  lemma {:induction false} SpansRecovered(pieces: seq<Piece>, rest: string)
    requires forall i :: 0 <= i < |pieces| ==> PieceOk(pieces[i])
    requires '`' !in rest
    ensures Spans(Written(pieces, rest)) == SpansIn(pieces)
    decreases |pieces|
  {
    if pieces == [] {
      NoSpans(rest);
    } else {
      var p, behind := pieces[0], Written(pieces[1..], rest);
      assert PieceOk(p);
      SpansRecovered(pieces[1..], rest);
      SkipsText(p.text, "`" + (p.span + ("`" + behind)));
      TakesSpan(p.span, behind);
      assert SpansIn(pieces) == [p.span] + SpansIn(pieces[1..]);
    }
  }

  // ---------- the violations ----------

  /** `r` is what of `xs` is not among `ys`, as often as it is there. */
  ghost predicate LeftOver(r: seq<string>, xs: seq<string>, ys: seq<string>) {
    forall x :: multiset(r)[x] == if x in ys then 0 else multiset(xs)[x]
  }

  lemma {:induction false} WithoutIs(xs: seq<string>, ys: seq<string>)
    ensures LeftOver(Without(xs, ys), xs, ys)
  {
    if xs != [] {
      WithoutIs(xs[1..], ys);
      Uncons(xs);
      assert multiset(xs) == multiset{xs[0]} + multiset(xs[1..]);
    }
  }

  /** When a violation is reported of a translation. */
  ghost predicate Reported(v: Violation, name: string, f: Facts, canonical: Facts)
    requires HasTables(canonical)
  {
    v.file == name &&
    match v
    case NoEngineTable(_) => f.engines == None
    case NoInstallTable(_) => f.engines.Some? && f.commands == None
    case NoWarning(_) => HasTables(f) && !f.warning
    case NoBanner(_) => HasTables(f) && !f.banner
    case EnginesDiffer(_, missing, extra) =>
      && HasTables(f) && !SameSet(f.engines.value, canonical.engines.value)
      && missing == Without(canonical.engines.value, f.engines.value)
      && extra == Without(f.engines.value, canonical.engines.value)
    case UnknownCommand(_, command) =>
      HasTables(f) && command in f.commands.value && command !in canonical.commands.value
  }

  lemma {:induction false} UnknownCommandsAre(name: string, commands: seq<string>, known: seq<string>, v: Violation)
    ensures v in UnknownCommands(name, commands, known) <==>
            v.UnknownCommand? && v.file == name && v.command in commands && v.command !in known
    decreases |commands|
  {
    if commands != [] {
      UnknownCommandsAre(name, commands[..|commands| - 1], known, v);
      Unsnoc(commands);
    }
  }

  lemma FindingIff(v: Violation, name: string, f: Facts, canonical: Facts)
    requires HasTables(canonical)
    ensures v in Findings(name, f, canonical.engines.value, canonical.commands.value) <==>
            Reported(v, name, f, canonical)
  {
    if HasTables(f) {
      WithoutIff(canonical.engines.value, f.engines.value);
      WithoutIff(f.engines.value, canonical.engines.value);
      UnknownCommandsAre(name, f.commands.value, canonical.commands.value, v);
    }
  }

  /** Of one of the translations. */
  ghost predicate AnyReported(v: Violation, ts: seq<Translation>, canonical: Facts)
    requires HasTables(canonical)
  {
    ts != [] &&
    (AnyReported(v, ts[..|ts| - 1], canonical) || Reported(v, ts[|ts| - 1].name, ts[|ts| - 1].facts, canonical))
  }

  lemma InLast(v: Violation, ts: seq<Translation>, engines: seq<string>, commands: seq<string>)
    requires ts != []
    ensures v in AllFindings(ts, engines, commands) <==>
              v in AllFindings(ts[..|ts| - 1], engines, commands) ||
              v in Findings(ts[|ts| - 1].name, ts[|ts| - 1].facts, engines, commands)
  {}

  lemma {:induction false} AllFindingIff(v: Violation, ts: seq<Translation>, canonical: Facts)
    requires HasTables(canonical)
    ensures v in AllFindings(ts, canonical.engines.value, canonical.commands.value) <==> AnyReported(v, ts, canonical)
    decreases |ts|
  {
    if ts != [] {
      AllFindingIff(v, ts[..|ts| - 1], canonical);
      FindingIff(v, ts[|ts| - 1].name, ts[|ts| - 1].facts, canonical);
      InLast(v, ts, canonical.engines.value, canonical.commands.value);
    }
  }

  lemma {:induction false} ReportedAt(v: Violation, ts: seq<Translation>, canonical: Facts, i: nat)
    requires HasTables(canonical) && i < |ts| && Reported(v, ts[i].name, ts[i].facts, canonical)
    ensures AnyReported(v, ts, canonical)
    decreases |ts|
  {
    if i < |ts| - 1 { ReportedAt(v, ts[..|ts| - 1], canonical, i); }
  }

  lemma {:induction false} ReportedSomewhere(v: Violation, ts: seq<Translation>, canonical: Facts) returns (i: nat)
    requires HasTables(canonical) && AnyReported(v, ts, canonical)
    ensures i < |ts| && Reported(v, ts[i].name, ts[i].facts, canonical)
    decreases |ts|
  {
    i := |ts| - 1;
    if AnyReported(v, ts[..|ts| - 1], canonical) { i := ReportedSomewhere(v, ts[..|ts| - 1], canonical); }
  }

  ghost predicate ReportedFile(v: Violation, file: File, canonical: Facts)
    requires HasTables(canonical)
  {
    Reported(v, ReadFile(file).name, ReadFile(file).facts, canonical)
  }

  lemma ReportedFileIs(v: Violation, file: File, t: Translation, canonical: Facts)
    requires HasTables(canonical) && t == ReadFile(file)
    ensures ReportedFile(v, file, canonical) <==> Reported(v, t.name, t.facts, canonical)
  {}

  lemma AnyReportedIs(v: Violation, localized: seq<File>, canonical: Facts, ts: seq<Translation>)
    requires HasTables(canonical) && ts == Map(ReadFile, localized)
    ensures AnyReported(v, ts, canonical) <==>
              exists i :: 0 <= i < |localized| && ReportedFile(v, localized[i], canonical)
  {
    if AnyReported(v, ts, canonical) {
      var i := ReportedSomewhere(v, ts, canonical);
      ReportedFileIs(v, localized[i], ts[i], canonical);
    }
    if i :| 0 <= i < |localized| && ReportedFile(v, localized[i], canonical) {
      ReportedFileIs(v, localized[i], ts[i], canonical);
      ReportedAt(v, ts, canonical, i);
    }
  }

  /** Of the original: a missing table is all that is said; else that its warning is missing. */
  predicate ReportedOriginal(v: Violation, c: Facts) {
    v.file == CANONICAL &&
    match v
    case NoEngineTable(_) => c.engines == None
    case NoInstallTable(_) => c.engines.Some? && c.commands == None
    case NoWarning(_) => HasTables(c) && !c.warning
    case _ => false
  }

  /** Exactly what is reported: of the original its missing table or warning; and, if it has both tables, of
      each translation the table, warning or banner it lacks, the engines it lacks and has too many, and
      every install command the original does not have. */
  lemma ViolationIff(v: Violation, canonical: string, localized: seq<File>)
    ensures var c := FactsOf(canonical);
            v in Violations(c, Map(ReadFile, localized)) <==>
              ReportedOriginal(v, c) ||
              (HasTables(c) && exists i :: 0 <= i < |localized| && ReportedFile(v, localized[i], c))
  {
    ViolationOf(v, FactsOf(canonical), localized);
  }

  lemma ViolationOf(v: Violation, c: Facts, localized: seq<File>)
    ensures v in Violations(c, Map(ReadFile, localized)) <==>
              ReportedOriginal(v, c) ||
              (HasTables(c) && exists i :: 0 <= i < |localized| && ReportedFile(v, localized[i], c))
  {
    OriginalIff(v, c);
    if HasTables(c) {
      AllFindingIff(v, Map(ReadFile, localized), c);
      AnyReportedIs(v, localized, c, Map(ReadFile, localized));
    }
  }

  lemma OriginalIff(v: Violation, c: Facts)
    ensures v in CanonicalFindings(c) <==> ReportedOriginal(v, c)
  {}

  /** The engines reported are what the translation lacks and what it has too many. */
  lemma EnginesReported(v: Violation, name: string, f: Facts, canonical: Facts)
    requires HasTables(canonical) && v.EnginesDiffer? && Reported(v, name, f, canonical)
    ensures LeftOver(v.missing, canonical.engines.value, f.engines.value)
    ensures LeftOver(v.extra, f.engines.value, canonical.engines.value)
    ensures v.missing != [] || v.extra != []
  {
    WithoutIs(canonical.engines.value, f.engines.value);
    WithoutIs(f.engines.value, canonical.engines.value);
    WithoutIff(canonical.engines.value, f.engines.value);
    WithoutIff(f.engines.value, canonical.engines.value);
  }
}
