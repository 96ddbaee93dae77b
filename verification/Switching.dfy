/** The follower among several transcripts: when every line of every transcript it followed is handled once. */
module Switching {
  import opened Text
  import opened Utf8
  import opened Follower

  // ---------- lines with their places ----------

  /** A line that was handled: its file, the reader's offset before it, and its text. */
  datatype Handled = Handled(file: string, at: nat, line: Runes)

  /** Lines read one after the other from an offset. */
  function Placed(f: string, at: nat, lines: seq<Runes>): (r: seq<Handled>)
    ensures |r| == |lines|
    decreases |lines|
  {
    if lines == [] then [] else [Handled(f, at, lines[0])] + Placed(f, at + |EncodeAll(lines[0])|, lines[1..])
  }

  function Size(lines: seq<Runes>): nat {
    if lines == [] then 0 else |EncodeAll(lines[0])| + Size(lines[1..])
  }

  lemma ConsAppend<T>(a: seq<T>, b: seq<T>)
    requires a != []
    ensures (a + b)[0] == a[0] && (a + b)[1..] == a[1..] + b
  {}

  lemma PlacedCons(f: string, at: nat, lines: seq<Runes>, next: nat)
    requires lines != [] && next == at + |EncodeAll(lines[0])|
    ensures Placed(f, at, lines) == [Handled(f, at, lines[0])] + Placed(f, next, lines[1..])
  {}

  lemma {:induction false} PlacedAppend(f: string, at: nat, a: seq<Runes>, b: seq<Runes>, behind: nat)
    requires behind == at + Size(a)
    ensures Placed(f, at, a + b) == Placed(f, at, a) + Placed(f, behind, b)
    decreases |a|
  {
    if a == [] {
      assert a + b == b;
    } else {
      var next := at + |EncodeAll(a[0])|;
      PlacedAppend(f, next, a[1..], b, behind);
      ConsAppend(a, b);
      PlacedCons(f, at, a, next);
      PlacedCons(f, at, a + b, next);
      Regroup([Handled(f, at, a[0])], Placed(f, next, a[1..]), Placed(f, behind, b));
    }
  }

  /** Every complete line of a file, each at its place. */
  function Table(f: string, c: seq<Byte>): seq<Handled> { Placed(f, 0, DecodedLines(c)) }

  /** No carriage return, and every ill-formed piece of a complete line is three bytes long. */
  predicate Clean(c: seq<Byte>) { NoCr(c) && Stable(Units(c[..Complete(c)])) }

  lemma WellFormedIsClean(c: seq<Byte>)
    requires NoCr(c) && WellFormed(c[..Complete(c)])
    ensures Clean(c)
  {
    GoodIsStable(Units(c[..Complete(c)]));
  }

  lemma CleanBefore(c: seq<Byte>, p: nat)
    requires Clean(c) && p <= |c|
    ensures Clean(c[..p])
  {
    if !Stable(Units(c[..p][..Complete(c[..p])])) { UnstableStays(c, p); }
  }

  /** The encoded lines of clean content are as long as its complete part. */
  lemma {:induction false} LinesSize(c: seq<Byte>)
    requires Stable(Units(c[..Complete(c)]))
    ensures Size(DecodedLines(c)) == Complete(c)
    decreases |c|
  {
    var n := LineEnd(c);
    if n > 0 {
      var rest := c[n..];
      FirstLineStable(c);
      LinesSize(rest);
      StableLength(c[..n]);
    }
  }

  lemma StableLength(b: seq<Byte>)
    requires Stable(Units(b))
    ensures |EncodeAll(Decode(b))| == |b|
  {
    UnitsSound(b);
    NoPairs(b);
    StableIff(Units(b));
    EncodedLength(Units(b));
  }

  lemma FirstLineStable(c: seq<Byte>)
    requires LineEnd(c) > 0 && Stable(Units(c[..Complete(c)]))
    ensures var n := LineEnd(c); Stable(Units(c[..n])) && Stable(Units(c[n..][..Complete(c[n..])]))
  {
    var n := LineEnd(c);
    UnitsBetween(c, n, Complete(c));
    Between(c, n, Complete(c));
    StableParts(Units(c[..n]), Units(c[n..Complete(c)]));
  }

  // ---------- several transcripts ----------

  /** The transcripts, the reader, what it has handled, and how long each transcript was at its last pass. */
  datatype Desk = Desk(files: map<string, seq<Byte>>, reader: Reader, log: seq<Handled>, passed: map<string, nat>)

  /** Some process appends to some file; or the follower takes a turn and finds a transcript or none. */
  datatype Event = Write(file: string, bytes: seq<Byte>) | Look(found: Option<string>)

  function ContentOf(d: Desk, f: string): seq<Byte> { if f in d.files then d.files[f] else [] }

  /** The transcript passed over in a turn, and the offset it is read from. */
  function Target(d: Desk, found: Option<string>): Option<string> { if found.Some? then found else d.reader.current }

  function From(d: Desk, found: Option<string>): nat {
    if found.Some? && found != d.reader.current then 0 else d.reader.offset
  }

  function Next(d: Desk, e: Event): Desk {
    match e
    case Write(f, bytes) => d.(files := d.files[f := ContentOf(d, f) + bytes])
    case Look(found) =>
      var reader := Turn(d.reader, found, d.files);
      if Target(d, found) == None || Target(d, found).value !in d.files then d.(reader := reader)
      else
        var f := Target(d, found).value;
        Desk(d.files, reader, d.log + Placed(f, From(d, found), NewLines(d.files[f], From(d, found))),
             d.passed[f := |d.files[f]|])
  }

  function After(events: seq<Event>): Desk {
    if events == [] then Desk(map[], Reader(None, 0, []), [], map[])
    else Next(After(events[..|events| - 1]), events[|events| - 1])
  }

  function Texts(log: seq<Handled>): (r: seq<Runes>)
    ensures |r| == |log|
  {
    if log == [] then [] else Texts(log[..|log| - 1]) + [log[|log| - 1].line]
  }

  /** What was handled of one file. */
  function Of(log: seq<Handled>, f: string): seq<Handled> {
    if log == [] then [] else (if log[0].file == f then [log[0]] else []) + Of(log[1..], f)
  }

  lemma {:induction false} OfAppend(a: seq<Handled>, b: seq<Handled>, f: string)
    ensures Of(a + b, f) == Of(a, f) + Of(b, f)
  {
    if a == [] {
      assert a + b == b;
    } else {
      OfAppend(a[1..], b, f);
      assert (a + b)[0] == a[0] && (a + b)[1..] == a[1..] + b;
      Regroup(if a[0].file == f then [a[0]] else [], Of(a[1..], f), Of(b, f));
    }
  }

  lemma {:induction false} OfPlaced(g: string, at: nat, lines: seq<Runes>, f: string)
    ensures Of(Placed(g, at, lines), f) == if f == g then Placed(g, at, lines) else []
    decreases |lines|
  {
    if lines != [] { OfPlaced(g, at + |EncodeAll(lines[0])|, lines[1..], f); }
  }

  // ---------- exactly once, and the two ways to miss it ----------

  /** The content whose complete lines should have been handled by now: of the current transcript what
      was there at its last pass, of any other the whole. */
  function Due(d: Desk, f: string): seq<Byte>
    requires f in d.passed
  {
    var c := ContentOf(d, f);
    if d.reader.current == Some(f) && d.passed[f] <= |c| then c[..d.passed[f]] else c
  }

  /** Of every transcript that was followed, every line due was handled exactly once, in order. */
  predicate OnceEach(d: Desk) {
    forall f :: f in d.passed ==> Of(d.log, f) == Table(f, Due(d, f))
  }

  /** This turn goes back to a transcript from which a line was handled before it was left. */
  predicate Returns(d: Desk, e: Event) {
    e.Look? && e.found.Some? && e.found != d.reader.current && e.found.value in d.files &&
        Of(d.log, e.found.value) != []
  }

  predicate Returned(events: seq<Event>) {
    events != [] && (Returned(events[..|events| - 1]) || Returns(After(events[..|events| - 1]), events[|events| - 1]))
  }

  /** A transcript was left, and a line of it was completed after its last pass. */
  predicate Abandoned(d: Desk) {
    exists f :: f in d.passed && d.reader.current != Some(f) && Unread(ContentOf(d, f), d.passed[f])
  }

  predicate Unread(c: seq<Byte>, p: nat) { p <= |c| && Complete(c) > Complete(c[..p]) }

  /** The reader and its log say the same. */
  lemma {:induction false} LogIsSeen(events: seq<Event>)
    ensures Texts(After(events).log) == After(events).reader.seen
    decreases |events|
  {
    if events != [] {
      var d, e := After(events[..|events| - 1]), events[|events| - 1];
      LogIsSeen(events[..|events| - 1]);
      if e.Look? && Target(d, e.found).Some? && Target(d, e.found).value in d.files {
        var f := Target(d, e.found).value;
        TextsAppend(d.log, Placed(f, From(d, e.found), NewLines(d.files[f], From(d, e.found))));
        TextsPlaced(f, From(d, e.found), NewLines(d.files[f], From(d, e.found)));
      }
    }
  }

  lemma {:induction false} TextsAppend(a: seq<Handled>, b: seq<Handled>)
    ensures Texts(a + b) == Texts(a) + Texts(b)
    decreases |b|
  {
    if b == [] {
      assert a + b == a;
    } else {
      var front, last := b[..|b| - 1], b[|b| - 1];
      TextsAppend(a, front);
      assert (a + b)[..|a + b| - 1] == a + front && (a + b)[|a + b| - 1] == last;
      Regroup(Texts(a), Texts(front), [last.line]);
    }
  }

  lemma {:induction false} TextsPlaced(f: string, at: nat, lines: seq<Runes>)
    ensures Texts(Placed(f, at, lines)) == lines
    decreases |lines|
  {
    if lines != [] {
      var rest := Placed(f, at + |EncodeAll(lines[0])|, lines[1..]);
      TextsPlaced(f, at + |EncodeAll(lines[0])|, lines[1..]);
      TextsAppend([Handled(f, at, lines[0])], rest);
      assert [Handled(f, at, lines[0])][..0] == [];
    }
  }

  // ---------- what a run keeps until it returns ----------

  /** A pass over clean content ends behind its complete lines. */
  lemma PassEnds(c: seq<Byte>, q: nat)
    requires Clean(c) && Boundary(c, q)
    ensures NewOffset(c, q) == Complete(c)
  {
    PassOffset(c, q);
    var rest := c[q..Complete(c)];
    UnitsBetween(c, q, Complete(c));
    StableParts(Units(c[..q]), Units(rest));
    UnitsSound(rest);
    StableIff(Units(rest));
  }

  lemma PlacedJoin(f: string, a: seq<Runes>, b: seq<Runes>, all: seq<Runes>, q: nat)
    requires a + b == all && Size(a) == q
    ensures Placed(f, 0, a) + Placed(f, q, b) == Placed(f, 0, all)
  {
    PlacedAppend(f, 0, a, b, Size(a));
  }

  /** A pass from where the last one stopped adds the lines completed since, at their places, and ends
      behind the last of them. */
  lemma PassPlaces(f: string, c: seq<Byte>, p: nat)
    requires Clean(c) && p <= |c|
    ensures var q := Complete(c[..p]);
            Table(f, c[..p]) + Placed(f, q, NewLines(c, q)) == Table(f, c) && NewOffset(c, q) == Complete(c)
  {
    var q := Complete(c[..p]);
    HandledGrows(c, p);
    LinesSplit(c, q);
    PassLines(c, q);
    PassEnds(c, q);
    CleanBefore(c, p);
    LinesSize(c[..p]);
    PlacedJoin(f, DecodedLines(c[..p]), NewLines(c, q), DecodedLines(c), q);
  }

  lemma NoLineIff(c: seq<Byte>)
    ensures DecodedLines(c) == [] <==> Complete(c) == 0
  {}

  /** The table grows exactly when a line was completed. */
  lemma TableGrowsIff(f: string, c: seq<Byte>, p: nat)
    requires Clean(c) && p <= |c|
    ensures Table(f, c[..p]) == Table(f, c) <==> !Unread(c, p)
  {
    var q := Complete(c[..p]);
    PassPlaces(f, c, p);
    HandledGrows(c, p);
    LinesSplit(c, q);
    NoCrReads(c[q..]);
    LinesDecode(c[q..]);
    NoLineIff(c[q..]);
    assert |Table(f, c)| == |Table(f, c[..p])| + |NewLines(c, q)|;
  }

  predicate CleanFiles(d: Desk) { forall f :: f in d.files ==> Clean(d.files[f]) }

  /** How far a transcript was read: up to the lines complete at its last pass. */
  function ReadTo(d: Desk, f: string): nat {
    if f in d.passed && d.passed[f] <= |ContentOf(d, f)| then d.passed[f] else 0
  }

  /** One transcript: handled are its lines up to the last pass, and the offset, if it is current, is behind them. */
  predicate KeptFor(d: Desk, f: string) {
    && (f in d.passed ==> f in d.files && d.passed[f] <= |d.files[f]|)
    && Of(d.log, f) == Table(f, ContentOf(d, f)[..ReadTo(d, f)])
    && (d.reader.current == Some(f) ==> d.reader.offset == Complete(ContentOf(d, f)[..ReadTo(d, f)]))
  }

  ghost predicate Kept(d: Desk) { forall f: string :: KeptFor(d, f) }

  lemma EmptyTable(f: string, c: seq<Byte>)
    ensures Table(f, c[..0]) == [] && Complete(c[..0]) == 0
  {
    assert c[..0] == [];
  }

  lemma AppendKept(d: Desk, e: Event, f: string)
    requires e.Write? && KeptFor(d, f)
    ensures KeptFor(Next(d, e), f)
  {
    var c, after := ContentOf(d, f), ContentOf(Next(d, e), f);
    assert c <= after;
    assert after[..ReadTo(d, f)] == c[..ReadTo(d, f)];
  }

  /** A turn that does not pass over f, and does not make it current. */
  lemma OtherKept(d: Desk, found: Option<string>, f: string)
    requires KeptFor(d, f) && Target(d, found) != Some(f)
    ensures KeptFor(Next(d, Look(found)), f)
  {
    if Target(d, found).Some? && Target(d, found).value in d.files {
      var g := Target(d, found).value;
      var lines := NewLines(d.files[g], From(d, found));
      OfAppend(d.log, Placed(g, From(d, found), lines), f);
      OfPlaced(g, From(d, found), lines, f);
      assert Of(d.log, f) + [] == Of(d.log, f);
    }
  }

  /** A turn that is no return reads f from where its last pass stopped. */
  lemma ReadsOn(d: Desk, found: Option<string>, f: string)
    requires KeptFor(d, f) && !Returns(d, Look(found)) && Target(d, found) == Some(f) && f in d.files
    ensures From(d, found) == Complete(d.files[f][..ReadTo(d, f)])
  {
    if found.Some? && found != d.reader.current {
      assert Table(f, d.files[f][..ReadTo(d, f)]) == [];
      NoLineIff(d.files[f][..ReadTo(d, f)]);
    }
  }

  lemma TargetReadOn(d: Desk, found: Option<string>, f: string, c: seq<Byte>, p: nat, q: nat)
    requires KeptFor(d, f) && Target(d, found) == Some(f) && f in d.files && c == d.files[f] && Clean(c)
    requires p == ReadTo(d, f) && q == From(d, found) == Complete(c[..p])
    ensures KeptFor(Next(d, Look(found)), f)
  {
    var lines := NewLines(c, q);
    var next := Next(d, Look(found));
    PassPlaces(f, c, p);
    OfAppend(d.log, Placed(f, q, lines), f);
    OfPlaced(f, q, lines, f);
    assert c[..|c|] == c;
    assert next.files == d.files && next.log == d.log + Placed(f, q, lines);
    assert ReadTo(next, f) == |c| && ContentOf(next, f) == c;
  }

  lemma TargetKept(d: Desk, found: Option<string>, f: string)
    requires KeptFor(d, f) && !Returns(d, Look(found)) && Target(d, found) == Some(f)
    requires f in d.files ==> Clean(d.files[f])
    ensures KeptFor(Next(d, Look(found)), f)
  {
    if f in d.files {
      ReadsOn(d, found, f);
      TargetReadOn(d, found, f, d.files[f], ReadTo(d, f), From(d, found));
    } else {
      EmptyTable(f, ContentOf(d, f));
    }
  }

  lemma StepKept(d: Desk, e: Event)
    requires Kept(d) && !Returns(d, e) && CleanFiles(d)
    ensures Kept(Next(d, e))
  {
    forall f: string ensures KeptFor(Next(d, e), f) {
      assert KeptFor(d, f);
      if e.Write? {
        AppendKept(d, e, f);
      } else if Target(d, e.found) == Some(f) {
        TargetKept(d, e.found, f);
      } else {
        OtherKept(d, e.found, f);
      }
    }
  }

  // ---------- after a return ----------

  /** Two handled lines of one file stand at its start. */
  predicate StartsTwice(log: seq<Handled>) {
    exists i, j :: 0 <= i < j < |log| && log[i].at == 0 && log[j].at == 0
  }

  ghost predicate Twice(d: Desk) { exists f :: f in d.passed && StartsTwice(Of(d.log, f)) }

  lemma {:induction false} LinesNotEmpty(c: seq<Byte>)
    ensures forall i :: 0 <= i < |DecodedLines(c)| ==> DecodedLines(c)[i] != []
    decreases |c|
  {
    var n := LineEnd(c);
    if n > 0 {
      LinesNotEmpty(c[n..]);
      UnitsCons(c[..n]);
    }
  }

  lemma {:induction false} PlacedBehind(f: string, at: nat, lines: seq<Runes>)
    requires forall i :: 0 <= i < |lines| ==> lines[i] != []
    ensures forall i :: 0 <= i < |lines| ==> Placed(f, at, lines)[i].at >= at
    ensures forall i :: 0 < i < |lines| ==> Placed(f, at, lines)[i].at > at
    decreases |lines|
  {
    if lines != [] {
      PlacedBehind(f, at + |EncodeAll(lines[0])|, lines[1..]);
      assert |EncodeAll(lines[0])| >= |Encode(lines[0][0])| >= 1;
    }
  }

  /** A table never starts twice. */
  lemma TableStartsOnce(f: string, c: seq<Byte>)
    ensures !StartsTwice(Table(f, c))
  {
    LinesNotEmpty(c);
    PlacedBehind(f, 0, DecodedLines(c));
  }

  lemma StartsTwiceStays(a: seq<Handled>, b: seq<Handled>)
    requires StartsTwice(a)
    ensures StartsTwice(a + b)
  {
    var i, j :| 0 <= i < j < |a| && a[i].at == 0 && a[j].at == 0;
    assert (a + b)[i] == a[i] && (a + b)[j] == a[j];
  }

  /** What was handled of a file only grows. */
  lemma OfGrows(d: Desk, e: Event, f: string) returns (more: seq<Handled>)
    ensures Of(Next(d, e).log, f) == Of(d.log, f) + more && (f in d.passed ==> f in Next(d, e).passed)
  {
    more := [];
    assert Of(d.log, f) + [] == Of(d.log, f);
    if e.Look? && Target(d, e.found).Some? && Target(d, e.found).value in d.files {
      var g := Target(d, e.found).value;
      var placed := Placed(g, From(d, e.found), NewLines(d.files[g], From(d, e.found)));
      OfAppend(d.log, placed, f);
      more := Of(placed, f);
    }
  }

  lemma TwiceStays(d: Desk, e: Event)
    requires Twice(d)
    ensures Twice(Next(d, e))
  {
    var f :| f in d.passed && StartsTwice(Of(d.log, f));
    var more := OfGrows(d, e, f);
    StartsTwiceStays(Of(d.log, f), more);
  }

  /** A transcript with lines, read from the start again. */
  lemma ReadAgain(f: string, c: seq<Byte>, p: nat)
    requires Clean(c) && p <= |c| && Table(f, c[..p]) != []
    ensures StartsTwice(Table(f, c[..p]) + Placed(f, 0, NewLines(c, 0)))
  {
    HandledGrows(c, p);
    NoLineIff(c[..p]);
    NoLineIff(c);
    EmptyTable(f, c);
    PassPlaces(f, c, 0);
    var before, added := Table(f, c[..p]), Placed(f, 0, NewLines(c, 0));
    assert [] + added == added;
    var all: seq<Handled> := before + added;
    assert all[0].at == 0 && all[|before|].at == 0;
  }

  lemma ReturnStartsTwice(d: Desk, e: Event)
    requires Kept(d) && CleanFiles(d) && Returns(d, e)
    ensures Twice(Next(d, e))
  {
    var f := e.found.value;
    assert KeptFor(d, f);
    ReadAgain(f, d.files[f], ReadTo(d, f));
    var lines := NewLines(d.files[f], 0);
    OfAppend(d.log, Placed(f, 0, lines), f);
    OfPlaced(f, 0, lines, f);
    assert f in Next(d, e).passed;
  }

  // ---------- every history ----------

  lemma {:induction false} FilesGrow(events: seq<Event>, k: nat)
    requires k <= |events| && CleanFiles(After(events))
    ensures CleanFiles(After(events[..k]))
    decreases |events|
  {
    if k < |events| {
      var front := events[..|events| - 1];
      StepClean(After(front), events[|events| - 1]);
      FilesGrow(front, k);
      assert front[..k] == events[..k];
    } else {
      assert events[..k] == events;
    }
  }

  lemma StepClean(d: Desk, e: Event)
    requires CleanFiles(Next(d, e))
    ensures CleanFiles(d)
  {
    forall f | f in d.files ensures Clean(d.files[f]) {
      var after := Next(d, e).files[f];
      CleanBefore(after, |d.files[f]|);
      assert after[..|d.files[f]|] == d.files[f];
    }
  }

  /** Until a return the follower keeps every transcript's place; from then on some file starts twice. */
  lemma {:induction false} KeptOrTwice(events: seq<Event>)
    requires CleanFiles(After(events))
    ensures if Returned(events) then Twice(After(events)) else Kept(After(events))
    decreases |events|
  {
    if events == [] {
      forall f: string ensures KeptFor(After(events), f) { EmptyTable(f, []); }
    } else {
      var front, e := events[..|events| - 1], events[|events| - 1];
      var d := After(front);
      StepClean(d, e);
      KeptOrTwice(front);
      if Returned(front) {
        TwiceStays(d, e);
      } else if Returns(d, e) {
        ReturnStartsTwice(d, e);
      } else {
        StepKept(d, e);
      }
    }
  }

  /** For a kept transcript: what was handled is what is due if and only if it is current or no line of it
      was completed after its last pass. */
  lemma DueIff(d: Desk, f: string)
    requires KeptFor(d, f) && f in d.passed && Clean(ContentOf(d, f))
    ensures Of(d.log, f) == Table(f, Due(d, f)) <==>
            d.reader.current == Some(f) || !Unread(ContentOf(d, f), d.passed[f])
  {
    TableGrowsIff(f, ContentOf(d, f), d.passed[f]);
  }

  /** For every interleaving of appends to any transcripts with turns that find any of them or none, on
      contents without carriage returns whose ill-formed pieces are three bytes long: of every transcript
      followed, every complete line was handled exactly once, at its place and in order, if and only if no
      turn went back to a transcript of which a line had been handled before, and none was left for good
      with a line completed after its last pass. */
  lemma OnceEachIff(events: seq<Event>)
    requires CleanFiles(After(events))
    ensures OnceEach(After(events)) <==> !Returned(events) && !Abandoned(After(events))
  {
    var d := After(events);
    KeptOrTwice(events);
    if Returned(events) {
      var f :| f in d.passed && StartsTwice(Of(d.log, f));
      TableStartsOnce(f, Due(d, f));
    } else {
      forall f | f in d.passed
        ensures Of(d.log, f) == Table(f, Due(d, f)) <==>
                d.reader.current == Some(f) || !Unread(ContentOf(d, f), d.passed[f])
      {
        assert KeptFor(d, f);
        DueIff(d, f);
      }
    }
  }

  /** The turn that switches away does not look at the transcript it leaves: lines completed there since
      the last pass are not handled. */
  lemma SwitchLooksAway(d: Desk, f: string, g: string, c: seq<Byte>)
    requires d.reader.current == Some(f) && f != g
    ensures Next(d.(files := d.files[f := c]), Look(Some(g))).log == Next(d, Look(Some(g))).log
  {}
}
