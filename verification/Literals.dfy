/** String literals and quoted identifiers per SQL dialect, and how an engine reads them back. */
module Literals {
  import opened Text

  datatype Dialect =
    | Postgres | Mysql | Mssql | Oracle | Sqlite | Libsql | Duckdb | Db2 | Druid | Elasticsearch
    | Opensearch | Trino | Cassandra | Clickhouse | Couchbase | Neo4j | Mongodb | Redis | Libredb
    | Kafka | Etcd | Milvus | Qdrant | Prometheus

  datatype Escape = Standard | DoubleAndBackslash | Backslash | Unicode {
    /** A quote inside the literal may be written twice. */
    predicate Doubles() { !Backslash? }

    /** A backslash inside the literal escapes the next character. */
    predicate Backslashes() { DoubleAndBackslash? || Backslash? }
  }

  /** An absent dialect is a generator without a connection; it gets the standard form. */
  function EscapeOf(dialect: Option<Dialect>): Escape {
    match dialect
    case None => Standard
    case Some(d) =>
      match d
      case Mssql => Unicode
      case Mysql => DoubleAndBackslash
      case Clickhouse => DoubleAndBackslash
      case Opensearch => DoubleAndBackslash
      case Couchbase => Backslash
      case Neo4j => Backslash
      case _ => Standard
  }

  const QUOTE := '\''
  const SLASH := '\\'

  // ---------- writing ----------

  /** The escaped inside of the literal: the backslash pass runs before the quote pass. */
  function EscapeBody(value: string, e: Escape): string {
    var slashed := if e.Backslashes() then ReplaceAll(value, SLASH, [SLASH, SLASH]) else value;
    ReplaceAll(slashed, QUOTE, if e.Backslash? then [SLASH, QUOTE] else [QUOTE, QUOTE])
  }

  function Enclosed(value: string, e: Escape): string { [QUOTE] + EscapeBody(value, e) + [QUOTE] }

  function QuoteLiteral(value: string, e: Escape): string {
    if e.Unicode? then ['N'] + Enclosed(value, e) else Enclosed(value, e)
  }

  // ---------- reading ----------

  /** What `\c` stands for; `\%` and `\_` keep both characters. */
  function Unescape(c: char): string {
    match c
    case '0' => "\0"
    case 'b' => [8 as char]
    case 'n' => "\n"
    case 'r' => "\r"
    case 't' => "\t"
    case 'Z' => [26 as char]
    case '%' => "\\%"
    case '_' => "\\_"
    case _ => [c]
  }

  /** A scanned value and the text after it. */
  datatype Read = Read(value: string, rest: string)

  function Prepend(p: string, r: Option<Read>): Option<Read> {
    match r
    case None => None
    case Some(Read(v, rest)) => Some(Read(p + v, rest))
  }

  lemma PrependTwice(p: string, q: string, r: Option<Read>)
    ensures Prepend(p, Prepend(q, r)) == Prepend(p + q, r)
    ensures Prepend("", r) == r
  {
    if r.Some? {
      assert p + q + r.value.value == p + (q + r.value.value);
      assert "" + r.value.value == r.value.value;
    }
  }

  /** Scans from just after the opening quote to the quote that closes the literal. */
  function ScanBody(s: string, e: Escape): (r: Option<Read>)
    ensures r.Some? ==> |r.value.rest| < |s|
  {
    if s == "" then None
    else if s[0] == QUOTE then
      if e.Doubles() && |s| > 1 && s[1] == QUOTE then Prepend([QUOTE], ScanBody(s[2..], e))
      else Some(Read("", s[1..]))
    else if e.Backslashes() && s[0] == SLASH && |s| > 1 then
      Prepend(Unescape(s[1]), ScanBody(s[2..], e))
    else Prepend([s[0]], ScanBody(s[1..], e))
  }

  /** Reads one literal from the front of a statement; the Unicode dialect may prefix it with N. */
  function ReadLiteral(s: string, e: Escape): Option<Read> {
    var body := if e.Unicode? && StartsWith(s, "N") then s[1..] else s;
    if body != "" && body[0] == QUOTE then ScanBody(body[1..], e) else None
  }

  /** `unquoteLiteral`: the value when the text is exactly one literal. */
  function UnquoteSpec(text: string, e: Escape): Option<string> {
    match ReadLiteral(text, e)
    case None => None
    case Some(Read(v, rest)) => if rest == "" then Some(v) else None
  }

  lemma ScanStep(body: string, at: nat, e: Escape)
    requires at < |body|
    ensures ScanBody(body[at..], e)
         == if body[at] == QUOTE then
              if e.Doubles() && at + 1 < |body| && body[at + 1] == QUOTE
              then Prepend([QUOTE], ScanBody(body[at + 2..], e))
              else Some(Read("", body[at + 1..]))
            else if e.Backslashes() && body[at] == SLASH && at + 1 < |body|
            then Prepend(Unescape(body[at + 1]), ScanBody(body[at + 2..], e))
            else Prepend([body[at]], ScanBody(body[at + 1..], e))
  {
    Drop(body, at, 1);
    if at + 1 < |body| { Drop(body, at, 2); }
  }

  /** The left-to-right scan of `unquoteLiteral`. */
  method UnquoteLiteral(text: string, e: Escape) returns (result: Option<string>)
    ensures result == UnquoteSpec(text, e)
  {
    var body := if e.Unicode? && StartsWith(text, "N") then text[1..] else text;
    if |body| < 2 || body[0] != QUOTE {
      return None;
    }
    var value, at := "", 1;
    PrependTwice("", "", ScanBody(body[1..], e));
    ghost var literal := ReadLiteral(text, e);
    while at < |body|
      invariant 1 <= at <= |body|
      invariant literal == Prepend(value, ScanBody(body[at..], e))
    {
      ScanStep(body, at, e);
      var c := body[at];
      if c == QUOTE {
        if e.Doubles() && at + 1 < |body| && body[at + 1] == QUOTE {
          PrependTwice(value, [QUOTE], ScanBody(body[at + 2..], e));
          value := value + [QUOTE];
          at := at + 2;
          continue;
        }
        assert value + "" == value;
        return if at == |body| - 1 then Some(value) else None;
      }
      if e.Backslashes() && c == SLASH && at + 1 < |body| {
        PrependTwice(value, Unescape(body[at + 1]), ScanBody(body[at + 2..], e));
        value := value + Unescape(body[at + 1]);
        at := at + 2;
        continue;
      }
      PrependTwice(value, [c], ScanBody(body[at + 1..], e));
      value := value + [c];
      at := at + 1;
    }
    result := None;
  }

  // ---------- the two are inverse ----------

  /** One escaped character. */
  function EscapeChar(c: char, e: Escape): string {
    if c == QUOTE then (if e.Backslash? then [SLASH, QUOTE] else [QUOTE, QUOTE])
    else if c == SLASH && e.Backslashes() then [SLASH, SLASH]
    else [c]
  }

  lemma ReplaceCons(c: char, s: string, x: char, w: string)
    ensures ReplaceAll([c] + s, x, w) == (if c == x then w else [c]) + ReplaceAll(s, x, w)
  {
    Cons(c, s);
  }

  /** The two replacement passes together act character by character: the second never
      touches what the first one wrote. */
  lemma {:induction false} EscapeBodyStep(value: string, e: Escape)
    requires value != ""
    ensures EscapeBody(value, e) == EscapeChar(value[0], e) + EscapeBody(value[1..], e)
  {
    var w := if e.Backslash? then [SLASH, QUOTE] else [QUOTE, QUOTE];
    if e.Backslashes() {
      var tail := ReplaceAll(value[1..], SLASH, [SLASH, SLASH]);
      ReplaceCons(value[0], tail, QUOTE, w);
      if value[0] == SLASH {
        Regroup([SLASH], [SLASH], tail);
        ReplaceCons(SLASH, [SLASH] + tail, QUOTE, w);
        Regroup([SLASH], [SLASH], ReplaceAll(tail, QUOTE, w));
        assert [SLASH] + [SLASH] == [SLASH, SLASH];
      }
    }
  }

  /** One escaped character is scanned as that character. */
  lemma ScanEscapedChar(c: char, e: Escape, tail: string)
    ensures ScanBody(EscapeChar(c, e) + tail, e) == Prepend([c], ScanBody(tail, e))
  {
    if |EscapeChar(c, e)| == 2 {
      Cons2(EscapeChar(c, e)[0], c, tail);
    } else {
      Cons(c, tail);
    }
  }

  lemma {:induction false} ScanEscaped(value: string, e: Escape, rest: string)
    requires rest == "" || rest[0] != QUOTE
    ensures ScanBody(EscapeBody(value, e) + [QUOTE] + rest, e) == Some(Read(value, rest))
  {
    if value == "" {
      assert EscapeBody(value, e) + [QUOTE] + rest == [QUOTE] + rest;
      Cons(QUOTE, rest);
    } else {
      ScanEscaped(value[1..], e, rest);
      EscapeBodyStep(value, e);
      Regroup4(EscapeChar(value[0], e), EscapeBody(value[1..], e), [QUOTE], rest);
      ScanEscapedChar(value[0], e, EscapeBody(value[1..], e) + [QUOTE] + rest);
      Uncons(value);
    }
  }

  lemma EnclosedScans(value: string, e: Escape, rest: string)
    requires rest == "" || rest[0] != QUOTE
    ensures var s := Enclosed(value, e) + rest;
            s[0] == QUOTE && ScanBody(s[1..], e) == Some(Read(value, rest))
  {
    ScanEscaped(value, e, rest);
    Regroup4([QUOTE], EscapeBody(value, e), [QUOTE], rest);
    Cons(QUOTE, EscapeBody(value, e) + [QUOTE] + rest);
  }

  /** Whatever follows a quoted value, the engine reads exactly that value and stops at its
      end: a value never spills into the statement. Two literals in a row would merge, so the
      text after it must not open with a quote. */
  lemma QuotedValueIsOneToken(value: string, e: Escape, rest: string)
    requires rest == "" || rest[0] != QUOTE
    ensures ReadLiteral(QuoteLiteral(value, e) + rest, e) == Some(Read(value, rest))
  {
    EnclosedScans(value, e, rest);
    if e.Unicode? {
      Regroup(['N'], Enclosed(value, e), rest);
      Cons('N', Enclosed(value, e) + rest);
    }
  }

  /** `unquoteLiteral` undoes `quoteLiteral` in every dialect. */
  lemma UnquoteUndoesQuote(value: string, e: Escape)
    ensures UnquoteSpec(QuoteLiteral(value, e), e) == Some(value)
  {
    QuotedValueIsOneToken(value, e, "");
    assert QuoteLiteral(value, e) + "" == QuoteLiteral(value, e);
  }

  /** A standard literal has one spelling only, so there the two are inverse in both directions. */
  lemma {:induction false} StandardLiteralIsUnique(text: string, value: string)
    ensures UnquoteSpec(text, Standard) == Some(value) <==> text == QuoteLiteral(value, Standard)
  {
    if UnquoteSpec(text, Standard) == Some(value) {
      ScannedWasEscaped(text[1..]);
      assert text == [QUOTE] + text[1..];
    }
    UnquoteUndoesQuote(value, Standard);
  }

  lemma {:induction false} ScannedWasEscaped(s: string)
    requires ScanBody(s, Standard).Some?
    ensures var Read(v, rest) := ScanBody(s, Standard).value;
            s == EscapeBody(v, Standard) + [QUOTE] + rest
  {
    var Read(v, rest) := ScanBody(s, Standard).value;
    if s[0] == QUOTE && !(|s| > 1 && s[1] == QUOTE) {
    } else {
      var n := if s[0] == QUOTE then 2 else 1;
      ScannedWasEscaped(s[n..]);
      EscapeBodyStep(v, Standard);
      assert v[1..] == ScanBody(s[n..], Standard).value.value;
      assert s == EscapeChar(s[0], Standard) + s[n..];
    }
  }

  // ---------- quoted identifiers ----------

  datatype Marks = Marks(open: char, close: char)

  /** Marks that no other part of a generated statement starts or continues with. */
  predicate Usable(m: Marks) {
    && m.open != QUOTE && m.close != QUOTE && !IsSpace(m.open) && !IsSpace(m.close) && !IsUpper(m.open)
    && m.open != '*' && m.open != '1' && m.close != ';' && m.close != ',' && m.close != ')'
  }

  function MarksOf(dialect: Option<Dialect>): (m: Marks)
    ensures Usable(m)
  {
    match dialect
    case Some(Opensearch) => Marks('`', '`')
    case Some(Mysql) => Marks('`', '`')
    case Some(Mssql) => Marks('[', ']')
    case _ => Marks('"', '"')
  }

  function QuoteIdentifier(name: string, m: Marks): string {
    [m.open] + ReplaceAll(name, m.close, [m.close, m.close]) + [m.close]
  }

  function ScanName(s: string, close: char): Option<Read> {
    if s == "" then None
    else if s[0] == close then
      if |s| > 1 && s[1] == close then Prepend([close], ScanName(s[2..], close))
      else Some(Read("", s[1..]))
    else Prepend([s[0]], ScanName(s[1..], close))
  }

  function ReadIdentifier(s: string, m: Marks): Option<Read> {
    if s != "" && s[0] == m.open then ScanName(s[1..], m.close) else None
  }

  lemma {:induction false} ScanQuotedName(name: string, close: char, rest: string)
    requires rest == "" || rest[0] != close
    ensures ScanName(ReplaceAll(name, close, [close, close]) + [close] + rest, close) == Some(Read(name, rest))
  {
    if name == "" {
      assert ReplaceAll(name, close, [close, close]) + [close] + rest == [close] + rest;
      Cons(close, rest);
    } else {
      ScanQuotedName(name[1..], close, rest);
      var body := ReplaceAll(name[1..], close, [close, close]);
      var tail := body + [close] + rest;
      Uncons(name);
      if name[0] == close {
        Regroup4([close, close], body, [close], rest);
        Cons2(close, close, tail);
      } else {
        Regroup4([name[0]], body, [close], rest);
        Cons(name[0], tail);
      }
    }
  }

  /** A quoted name is read back whole in every dialect, even when it holds its own closing mark. */
  lemma QuotedNameIsOneToken(name: string, m: Marks, rest: string)
    requires rest == "" || rest[0] != m.close
    ensures ReadIdentifier(QuoteIdentifier(name, m) + rest, m) == Some(Read(name, rest))
  {
    ScanQuotedName(name, m.close, rest);
    var body := ReplaceAll(name, m.close, [m.close, m.close]);
    Regroup4([m.open], body, [m.close], rest);
    Cons(m.open, body + [m.close] + rest);
  }
}
