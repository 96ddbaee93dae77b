/** The column mapping of the import dialog, kept while one loaded CSV file is read in different ways. */
module Mapping {
  import opened Text
  import opened Csv
  import ImportSql

  datatype State = State(headers: seq<string>, mapping: map<string, string>, hasHeader: bool, delimiter: Delimiter)

  /** The one key an assignment to a plain object does not create. */
  const PROTO := ImportSql.PROTO

  /** The 1:1 mapping of a freshly loaded file, built by assigning key after key. */
  function AutoMap(headers: seq<string>): map<string, string> {
    map h | h in headers && h != PROTO :: h
  }

  lemma AutoMapNext(headers: seq<string>, i: nat)
    requires i < |headers|
    ensures var m := AutoMap(headers[..i]);
            AutoMap(headers[..i + 1]) == if headers[i] != PROTO then m[headers[i] := headers[i]] else m
  {
    assert headers[..i + 1] == headers[..i] + [headers[i]];
  }

  /** `Object.fromEntries` of the headers; it does create the special key. */
  function EntriesOf(headers: seq<string>): map<string, string> {
    map h | h in headers :: h
  }

  predicate HeadersDiffer(now: seq<string>, before: seq<string>) {
    exists i :: 0 <= i < |now| && (i >= |before| || now[i] != before[i])
  }

  /** A loaded file, or nothing when it holds no line. */
  function Load(text: string): Option<State> {
    var data := ParseCSV(text, true, Comma);
    if data.headers == [] then None
    else Some(State(data.headers, AutoMap(data.headers), true, Comma))
  }

  /** A toggle of the header switch or the delimiter, or a name typed for a listed header. */
  datatype Step = Interpret(hasHeader: bool, delimiter: Delimiter) | Type(header: string, target: string)

  function HeadersOf(text: string, hasHeader: bool, delimiter: Delimiter): seq<string> {
    ParseCSV(text, hasHeader, delimiter).headers
  }

  function Next(text: string, s: State, step: Step): State {
    match step
    case Interpret(hasHeader, delimiter) =>
      var headers := HeadersOf(text, hasHeader, delimiter);
      State(headers, if HeadersDiffer(headers, s.headers) then
          EntriesOf(headers) + s.mapping else s.mapping, hasHeader, delimiter)
    case Type(header, target) =>
      if header in s.headers then s.(mapping := s.mapping[header := target]) else s
  }

  function Run(text: string, s: State, steps: seq<Step>): State {
    if steps == [] then s else Next(text, Run(text, s, steps[..|steps| - 1]), steps[|steps| - 1])
  }

  /** The dialog's state and the three handlers that update it. */
  class ImportDialog {
    var text: string
    var headers: seq<string>
    var mapping: map<string, string>
    var hasHeader: bool
    var delimiter: Delimiter

    function Current(): State
      reads this
    {
      State(headers, mapping, hasHeader, delimiter)
    }

    constructor ()
      ensures text == "" && Current() == State([], map[], true, Comma)
    {
      text, headers, mapping, hasHeader, delimiter := "", [], map[], true, Comma;
    }

    method HandleFileSelect(content: string) returns (loaded: bool)
      modifies this
      ensures loaded <==> Load(content).Some?
      ensures loaded ==> text == content
      ensures loaded ==>
                Current() == Load(content).value.(hasHeader := old(hasHeader), delimiter := old(delimiter))
      ensures !loaded ==> text == old(text) && Current() == old(Current())
    {
      var data := ParseCSV(content, true, Comma);
      if data.headers == [] {
        return false;
      }
      var names := data.headers;
      var m: map<string, string> := map[];
      for i := 0 to |names|
        invariant m == AutoMap(names[..i])
        invariant text == old(text) && Current() == old(Current())
      {
        if names[i] != PROTO {
          m := m[names[i] := names[i]];
        }
        AutoMapNext(names, i);
      }
      assert names[..|names|] == names;
      text, headers, mapping := content, names, m;
      return true;
    }

    method UpdateCsvPreview(newHasHeader: bool, newDelimiter: Delimiter)
      modifies this
      ensures text == old(text)
      ensures Current() == Next(text, old(Current()), Interpret(newHasHeader, newDelimiter))
    {
      var parsed := HeadersOf(text, newHasHeader, newDelimiter);
      hasHeader := newHasHeader;
      delimiter := newDelimiter;
      if HeadersDiffer(parsed, headers) {
        mapping := EntriesOf(parsed) + mapping;
      }
      headers := parsed;
    }

    method TypeTarget(header: string, target: string)
      requires header in headers
      modifies this`mapping
      ensures Current() == Next(text, old(Current()), Type(header, target))
    {
      mapping := mapping[header := target];
    }
  }

  // ---------- properties of runs ----------

  /** Some step of the run wrote an entry for `h`. */
  predicate Wrote(text: string, s: State, steps: seq<Step>, h: string) {
    if steps == [] then false
    else
      var before := Run(text, s, steps[..|steps| - 1]);
      Wrote(text, s, steps[..|steps| - 1], h) ||
      match steps[|steps| - 1]
      case Interpret(hasHeader, delimiter) =>
        var headers := HeadersOf(text, hasHeader, delimiter);
        HeadersDiffer(headers, before.headers) && h in headers
      case Type(header, _) => header == h && h in before.headers
  }

  /** The name typed last for `h` while it was listed. */
  function LastTyped(text: string, s: State, steps: seq<Step>, h: string): Option<string> {
    if steps == [] then None
    else
      var init := steps[..|steps| - 1];
      match steps[|steps| - 1]
      case Interpret(_, _) => LastTyped(text, s, init, h)
      case Type(header, target) =>
        if header == h && h in Run(text, s, init).headers then Some(target) else LastTyped(text, s, init, h)
  }

  /** The interpretation chosen last; a file is loaded with a header row and commas. */
  function LastChosen(steps: seq<Step>): (bool, Delimiter) {
    if steps == [] then (true, Comma)
    else
      match steps[|steps| - 1]
      case Interpret(hasHeader, delimiter) => (hasHeader, delimiter)
      case Type(_, _) => LastChosen(steps[..|steps| - 1])
  }

  /** After any run the switches are the ones chosen last, and the listed headers are the file's under them:
      no typed name changes what is listed. */
  lemma {:induction false} HeadersAreRead(text: string, steps: seq<Step>)
    requires Load(text).Some?
    ensures var end, chosen := Run(text, Load(text).value, steps), LastChosen(steps);
            (end.hasHeader, end.delimiter) == chosen && end.headers == HeadersOf(text, chosen.0, chosen.1)
  {
    if steps != [] { HeadersAreRead(text, steps[..|steps| - 1]); }
  }

  /** Entries only come from loading and from the steps that write them, and none is ever lost. */
  lemma {:induction false} EntryIffWritten(text: string, s: State, steps: seq<Step>, h: string)
    ensures h in Run(text, s, steps).mapping <==> h in s.mapping || Wrote(text, s, steps, h)
  {
    if steps != [] {
      EntryIffWritten(text, s, steps[..|steps| - 1], h);
    }
  }

  /** A list that differs nowhere from the current headers lists only current headers. */
  lemma SameHeaders(now: seq<string>, before: seq<string>, h: string)
    requires !HeadersDiffer(now, before) && h in now
    ensures h in before
  {
    var i :| 0 <= i < |now| && now[i] == h;
    assert i < |before| && now[i] == before[i];
  }

  /** Whatever the user toggles and types, every listed header has its entry, except that a
      header named `__proto__` has one exactly when some step of the run wrote it. */
  lemma {:induction false} EveryHeaderHasAnEntry(text: string, steps: seq<Step>, h: string)
    requires Load(text).Some? && h in Run(text, Load(text).value, steps).headers
    ensures h in Run(text, Load(text).value, steps).mapping
       <==> h != PROTO || Wrote(text, Load(text).value, steps, PROTO)
  {
    var s := Load(text).value;
    EntryIffWritten(text, s, steps, h);
    if h != PROTO {
      HeaderKeepsEntry(text, steps, h);
    }
  }

  lemma {:induction false} HeaderKeepsEntry(text: string, steps: seq<Step>, h: string)
    requires Load(text).Some? && h != PROTO && h in Run(text, Load(text).value, steps).headers
    ensures h in Run(text, Load(text).value, steps).mapping
  {
    if steps != [] {
      var before := Run(text, Load(text).value, steps[..|steps| - 1]);
      var step := steps[|steps| - 1];
      if step.Interpret? && !HeadersDiffer(HeadersOf(text, step.hasHeader, step.delimiter), before.headers) {
        SameHeaders(HeadersOf(text, step.hasHeader, step.delimiter), before.headers, h);
      }
      if h in before.headers {
        HeaderKeepsEntry(text, steps[..|steps| - 1], h);
      }
    }
  }

  /** The entry held for a header is the name typed last for it, or the header itself: no
      re-interpretation of the file forgets a typed name. */
  lemma {:induction false} LastTypedNameIsHeld(text: string, steps: seq<Step>, h: string)
    requires Load(text).Some? && h in Run(text, Load(text).value, steps).mapping
    ensures Run(text, Load(text).value, steps).mapping[h]
         == match LastTyped(text, Load(text).value, steps, h) { case Some(target) => target case None => h }
  {
    if steps != [] {
      var init := steps[..|steps| - 1];
      if h in Run(text, Load(text).value, init).mapping {
        LastTypedNameIsHeld(text, init, h);
      } else {
        NeverTyped(text, Load(text).value, init, h);
      }
    }
  }

  lemma {:induction false} NeverTyped(text: string, s: State, steps: seq<Step>, h: string)
    requires h !in Run(text, s, steps).mapping
    ensures LastTyped(text, s, steps, h) == None
  {
    if steps != [] {
      NeverTyped(text, s, steps[..|steps| - 1], h);
    }
  }

  function NameToUse(text: string, steps: seq<Step>, h: string): string
    requires Load(text).Some?
  {
    match LastTyped(text, Load(text).value, steps, h)
    case Some(target) => if target == "" then h else target
    case None => if h == PROTO && !Wrote(text, Load(text).value, steps, h) then ImportSql.OBJECT_TEXT else h
  }

  /** So the generated INSERT names, for every listed header, the non-empty name typed last, else the
      header; a header `__proto__` that no step wrote becomes the text of an object. */
  lemma InsertUsesTypedName(text: string, steps: seq<Step>, i: nat)
    requires Load(text).Some?
    requires i < |Run(text, Load(text).value, steps).headers|
    ensures var end := Run(text, Load(text).value, steps);
            ImportSql.MappedHeaders(end.headers, end.mapping)[i] == NameToUse(text, steps, end.headers[i])
  {
    var end := Run(text, Load(text).value, steps);
    var h := end.headers[i];
    EveryHeaderHasAnEntry(text, steps, h);
    if h in end.mapping { LastTypedNameIsHeld(text, steps, h); } else { NeverTyped(text, Load(text).value, steps, h); }
  }

  /** A file that is one plain word loads as one header. */
  lemma WordLoads(h: string)
    requires h != "" && forall i :: 0 <= i < |h| ==> IsWord(h[i])
    ensures Load(h).Some? && Load(h).value.headers == [h]
  {
    WordIsOneLine(h);
    WordIsOneCell(h);
  }

  lemma WordIsOneLine(h: string)
    requires h != "" && forall i :: 0 <= i < |h| ==> IsWord(h[i])
    ensures Lines(h) == [h]
  {
    SplitNone(h, '\n');
    TrimFixes(h);
    assert [h][..0] == [];
  }

  lemma WordIsOneCell(h: string)
    requires h != "" && forall i :: 0 <= i < |h| ==> IsWord(h[i])
    ensures LineCells(h, Comma) == [h]
  {
    TrimFixes(h);
    assert h + "" == h && "" + h == h;
    BareContent(h, "", "", ',');
  }

  /** Right after loading a file whose header is the special key, the mapping has no entry for it. */
  lemma ProtoHeaderHasNoEntry()
    ensures Load(PROTO).Some? && PROTO in Load(PROTO).value.headers && PROTO !in Load(PROTO).value.mapping
  {
    WordLoads(PROTO);
  }
}
