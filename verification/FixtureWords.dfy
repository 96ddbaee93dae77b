/** The trigger rule of the SQLite fixture reader, by how such a statement is put together. */
module FixtureWords {
  import opened Text
  import opened Fixtures

  // ---------- keywords and blanks ----------

  /** The word in any mix of capital and small letters. */
  predicate Spells(w: string, keyword: string) { Upper(w) == keyword }

  predicate Blanks(s: string) { s != "" && AllSpaces(s) }

  /** No letter, digit or underscore follows. */
  predicate WordEnds(rest: string) { rest == "" || !IsWord(rest[0]) }

  lemma Spelled(w: string, keyword: string, rest: string)
    requires Spells(w, keyword)
    ensures StartsWithI(w + rest, keyword) && (w + rest)[|keyword|..] == rest
  {
    assert (w + rest)[..|keyword|] == w;
  }

  lemma SpelledBack(s: string, keyword: string)
    requires StartsWithI(s, keyword)
    ensures Spells(s[..|keyword|], keyword) && s == s[..|keyword|] + s[|keyword|..]
  {}

  lemma {:induction false} BlanksAhead(blanks: string, s: string)
    requires AllSpaces(blanks) && (s == "" || !IsSpace(s[0]))
    ensures TrimStart(blanks + s) == s
  {
    if blanks == "" {
      assert blanks + s == s;
    } else {
      BlanksAhead(blanks[1..], s);
      assert (blanks + s)[0] == blanks[0] && (blanks + s)[1..] == blanks[1..] + s;
    }
  }

  /** A keyword's first letter is no blank. */
  lemma NoBlankFirst(s: string, keyword: string)
    requires StartsWithI(s, keyword) && keyword != "" && IsUpper(keyword[0])
    ensures s != "" && !IsSpace(s[0])
  {
    assert Upper(s[..|keyword|])[0] == UpperChar(s[0]);
  }

  // ---------- CREATE [TEMP | TEMPORARY] TRIGGER ----------

  lemma TriggerWordIff(s: string)
    ensures TriggerWord(s) <==> exists w, rest :: s == w + rest && Spells(w, "TRIGGER") && WordEnds(rest)
  {
    if TriggerWord(s) { SpelledBack(s, "TRIGGER"); }
    if w, rest :| s == w + rest && Spells(w, "TRIGGER") && WordEnds(rest) {
      Spelled(w, "TRIGGER", rest);
    }
  }

  /** The optional word with the blanks behind it. */
  ghost predicate Temporary(t: string) {
    t == "" || exists w, blanks :: t == w + blanks && Blanks(blanks) && (Spells(w, "TEMP") || Spells(w, "TEMPORARY"))
  }

  lemma SpacedTriggerIff(s: string, n: nat)
    requires n <= |s|
    ensures SpacedTrigger(s, n) <==>
              exists blanks, t :: s[n..] == blanks + t && Blanks(blanks) && TriggerWord(t)
  {
    var u := s[n..];
    if SpacedTrigger(s, n) {
      var blanks := TrimStartSplits(u);
      assert u[0] == s[n];
      NoBlankFirst(TrimStart(u), "TRIGGER");
      assert blanks != "";
    }
    if blanks, t :| u == blanks + t && Blanks(blanks) && TriggerWord(t) {
      NoBlankFirst(t, "TRIGGER");
      BlanksAhead(blanks, t);
      assert u[0] == blanks[0] == s[n];
    }
  }

  lemma TempTriggerTakesApart(s: string) returns (temporary: string, t: string)
    requires TempTrigger(s)
    ensures s == temporary + t && Temporary(temporary) && TriggerWord(t)
  {
    temporary, t := "", s;
    if !TriggerWord(s) {
      var word := if StartsWithI(s, "TEMP") && SpacedTrigger(s, 4) then "TEMP" else "TEMPORARY";
      var n := |word|;
      SpelledBack(s, word);
      SpacedTriggerIff(s, n);
      var blanks, rest :| s[n..] == blanks + rest && Blanks(blanks) && TriggerWord(rest);
      temporary, t := s[..n] + blanks, rest;
      Regroup(s[..n], blanks, rest);
    }
  }

  lemma TempTriggerPutTogether(w: string, blanks: string, t: string)
    requires Spells(w, "TEMP") || Spells(w, "TEMPORARY")
    requires Blanks(blanks) && TriggerWord(t)
    ensures TempTrigger(w + (blanks + t))
  {
    var s := w + (blanks + t);
    if Spells(w, "TEMP") {
      Spelled(w, "TEMP", blanks + t);
      SpacedTriggerIff(s, 4);
    } else {
      Spelled(w, "TEMPORARY", blanks + t);
      SpacedTriggerIff(s, 9);
    }
  }

  lemma TempTriggerIs(temporary: string, t: string)
    requires Temporary(temporary) && TriggerWord(t)
    ensures TempTrigger(temporary + t)
  {
    if temporary == "" {
      assert temporary + t == t;
    } else {
      var w, blanks :| temporary == w + blanks && Blanks(blanks) && (Spells(w, "TEMP") || Spells(w, "TEMPORARY"));
      Regroup(w, blanks, t);
      TempTriggerPutTogether(w, blanks, t);
    }
  }

  lemma TempTriggerStarts(s: string)
    requires TempTrigger(s)
    ensures s != "" && !IsSpace(s[0])
  {
    if TriggerWord(s) {
      NoBlankFirst(s, "TRIGGER");
    } else if StartsWithI(s, "TEMP") {
      NoBlankFirst(s, "TEMP");
    } else {
      NoBlankFirst(s, "TEMPORARY");
    }
  }

  /** The parts of a statement that opens a trigger. */
  datatype Opening = Opening(lead: string, create: string, blanks: string, temporary: string, trigger: string,
                             rest: string) {
    function Text(): string { lead + (create + (blanks + (temporary + (trigger + rest)))) }

    ghost predicate Ok() {
      && AllSpaces(lead) && Spells(create, "CREATE") && Blanks(blanks) && Temporary(temporary)
      && Spells(trigger, "TRIGGER") && WordEnds(rest)
    }
  }

  lemma OpensTakesApart(s: string) returns (o: Opening)
    requires Opens(s)
    ensures o.Ok() && o.Text() == s
  {
    var lead := TrimStartSplits(s);
    var t := TrimStart(s);
    SpelledBack(t, "CREATE");
    var blanks := TrimStartSplits(t[6..]);
    TempTriggerStarts(TrimStart(t[6..]));
    assert t[6..][0] == t[6] && blanks != "";
    var temporary, word := TempTriggerTakesApart(TrimStart(t[6..]));
    SpelledBack(word, "TRIGGER");
    o := Opening(lead, t[..6], blanks, temporary, word[..7], word[7..]);
  }

  lemma OpensPutTogether(o: Opening)
    requires o.Ok()
    ensures Opens(o.Text())
  {
    var word := o.trigger + o.rest;
    Spelled(o.trigger, "TRIGGER", o.rest);
    assert TriggerWord(word);
    TempTriggerIs(o.temporary, word);
    TempTriggerStarts(o.temporary + word);
    BlanksAhead(o.blanks, o.temporary + word);
    var t := o.create + (o.blanks + (o.temporary + word));
    Spelled(o.create, "CREATE", o.blanks + (o.temporary + word));
    NoBlankFirst(t, "CREATE");
    BlanksAhead(o.lead, t);
    assert t[6] == o.blanks[0];
  }

  /** A statement opens a trigger exactly if it is: blanks, CREATE, blanks, at will TEMP or TEMPORARY and
      blanks, and the whole word TRIGGER, in any mix of capital and small letters. */
  lemma OpensIff(s: string)
    ensures Opens(s) <==> exists o: Opening :: o.Ok() && o.Text() == s
  {
    if Opens(s) { var o := OpensTakesApart(s); }
    if o: Opening :| o.Ok() && o.Text() == s { OpensPutTogether(o); }
  }

  // ---------- END ----------

  /** The parts of a statement whose last word is END. */
  datatype Closing = Closing(front: string, word: string, blanks: string) {
    function Text(): string { front + (word + blanks) }

    predicate Ok() {
      && AllSpaces(blanks) && Spells(word, "END") && (front == "" || !IsWord(front[|front| - 1]))
    }
  }

  lemma {:induction false} BlanksBehind(s: string, blanks: string)
    requires AllSpaces(blanks) && Firm(s)
    ensures TrimEnd(s + blanks) == s
    decreases |blanks|
  {
    if blanks == "" {
      assert s + blanks == s;
    } else {
      var u := s + blanks;
      BlanksBehind(s, blanks[..|blanks| - 1]);
      assert u[|u| - 1] == blanks[|blanks| - 1] && u[..|u| - 1] == s + blanks[..|blanks| - 1];
    }
  }

  lemma ClosesPutTogether(c: Closing)
    requires c.Ok()
    ensures Closes(c.Text())
  {
    var t := c.front + c.word;
    assert Upper(c.word)[2] == UpperChar(c.word[2]) == 'D';
    assert t[|t| - 1] == c.word[2] && t[|t| - 3..] == c.word;
    BlanksBehind(t, c.blanks);
    Regroup(c.front, c.word, c.blanks);
  }

  lemma ClosesTakesApart(s: string) returns (c: Closing)
    requires Closes(s)
    ensures c.Ok() && c.Text() == s
  {
    var blanks := TrimEndSplits(s);
    var t := TrimEnd(s);
    c := Closing(t[..|t| - 3], t[|t| - 3..], blanks);
    assert c.front + c.word == t;
    Regroup(c.front, c.word, c.blanks);
  }

  /** It closes one exactly if its last word, before the blanks at its end, is END. */
  lemma ClosesIff(s: string)
    ensures Closes(s) <==> exists c: Closing :: c.Ok() && c.Text() == s
  {
    if Closes(s) { var c := ClosesTakesApart(s); }
    if c: Closing :| c.Ok() && c.Text() == s { ClosesPutTogether(c); }
  }
}
