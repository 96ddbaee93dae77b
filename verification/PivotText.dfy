/** The text of a generated pivot query, and reading it back: no name or key can change its structure. */
module PivotText {
  import opened Text
  import opened Literals
  import opened PivotSql
  import P = Pivot

  function AggLabel(agg: P.Agg): string {
    match agg case Count => "COUNT" case Sum => "SUM" case Avg => "AVG" case Min => "MIN" case Max => "MAX"
  }

  /** The heading of a single column is the aggregate's keyword in small letters, and "_value". */
  lemma HeadingNamesAggregate(cfg: P.Config, ck: string)
    requires cfg.colField == ""
    ensures Upper(Title(cfg, ck)) == AggLabel(cfg.agg) + "_VALUE"
  {
    assert Upper(AggName(cfg.agg)) == AggLabel(cfg.agg);
  }

  // ---------- writing; every piece is put in front of the text that follows it ----------

  function Operand(value: Option<string>, constant: char, m: Marks): string {
    if value.Some? then QuoteIdentifier(value.value, m) else [constant]
  }

  function ItemText(item: Item, m: Marks, e: Escape, rest: string): string {
    match item
    case Name(field) => QuoteIdentifier(field, m) + rest
    case Cased(agg, col, key, value, alias) =>
      AggLabel(agg) + ("(CASE WHEN " + (QuoteIdentifier(col, m) + (" = " + (QuoteLiteral(key, e)
        + (" THEN " + (Operand(value, '1', m) + (" END) AS " + (QuoteIdentifier(alias, m) + rest))))))))
    case Plain(agg, value, alias) =>
      AggLabel(agg) + ("(" + (Operand(value, '*', m) + (") AS " + (QuoteIdentifier(alias, m) + rest))))
  }

  function ItemsText(items: seq<Item>, m: Marks, e: Escape, rest: string): string
    requires items != []
  {
    ItemText(items[0], m, e, if |items| == 1 then rest else ",\n  " + ItemsText(items[1..], m, e, rest))
  }

  function QueryText(q: Query, m: Marks, e: Escape): string
    requires q.select != []
  {
    "SELECT\n  " + ItemsText(q.select, m, e,
      "\nFROM your_table\nGROUP BY " + (QuoteIdentifier(q.groupBy, m) +
          ("\nORDER BY " + (QuoteIdentifier(q.orderBy, m) + ";"))))
  }

  // ---------- reading ----------

  datatype Operands = Operands(value: Option<string>, rest: string)

  function ReadOperand(s: string, constant: char, m: Marks): Option<Operands> {
    if s != "" && s[0] == constant then Some(Operands(None, s[1..]))
    else
      match ReadIdentifier(s, m)
      case None => None
      case Some(Read(name, rest)) => Some(Operands(Some(name), rest))
  }

  datatype Aggs = Aggs(agg: P.Agg, rest: string)

  function ReadAgg(s: string): Option<Aggs> {
    if Expect(s, "COUNT").Some? then Some(Aggs(P.Count, s[5..]))
    else if Expect(s, "SUM").Some? then Some(Aggs(P.Sum, s[3..]))
    else if Expect(s, "AVG").Some? then Some(Aggs(P.Avg, s[3..]))
    else if Expect(s, "MIN").Some? then Some(Aggs(P.Min, s[3..]))
    else if Expect(s, "MAX").Some? then Some(Aggs(P.Max, s[3..]))
    else None
  }

  datatype Items = Items(item: Item, rest: string)

  function ReadCased(agg: P.Agg, s0: string, m: Marks, e: Escape): Option<Items> {
    match ReadIdentifier(s0, m)
    case None => None
    case Some(Read(col, s1)) =>
      match Expect(s1, " = ")
      case None => None
      case Some(s2) =>
        match ReadLiteral(s2, e)
        case None => None
        case Some(Read(key, s3)) =>
          match Expect(s3, " THEN ")
          case None => None
          case Some(s4) =>
            match ReadOperand(s4, '1', m)
            case None => None
            case Some(Operands(value, s5)) =>
              match Expect(s5, " END) AS ")
              case None => None
              case Some(s6) =>
                match ReadIdentifier(s6, m)
                case None => None
                case Some(Read(alias, rest)) => Some(Items(Cased(agg, col, key, value, alias), rest))
  }

  function ReadPlain(agg: P.Agg, s0: string, m: Marks): Option<Items> {
    match ReadOperand(s0, '*', m)
    case None => None
    case Some(Operands(value, s1)) =>
      match Expect(s1, ") AS ")
      case None => None
      case Some(s2) =>
        match ReadIdentifier(s2, m)
        case None => None
        case Some(Read(alias, rest)) => Some(Items(Plain(agg, value, alias), rest))
  }

  function ReadItem(s: string, m: Marks, e: Escape): Option<Items> {
    match ReadAgg(s)
    case None =>
      (match ReadIdentifier(s, m)
       case None => None
       case Some(Read(name, rest)) => Some(Items(Name(name), rest)))
    case Some(Aggs(agg, s1)) =>
      match Expect(s1, "(CASE WHEN ")
      case Some(s2) => ReadCased(agg, s2, m, e)
      case None =>
        match Expect(s1, "(")
        case None => None
        case Some(s2) => ReadPlain(agg, s2, m)
  }

  datatype Lists = Lists(items: seq<Item>, rest: string)

  function ReadItems(s: string, m: Marks, e: Escape, fuel: nat): Option<Lists>
    decreases fuel
  {
    if fuel == 0 then None
    else
      match ReadItem(s, m, e)
      case None => None
      case Some(Items(item, s1)) =>
        match Expect(s1, ",\n  ")
        case None => Some(Lists([item], s1))
        case Some(s2) =>
          match ReadItems(s2, m, e, fuel - 1)
          case None => None
          case Some(Lists(items, rest)) => Some(Lists([item] + items, rest))
  }

  /** Reads a query; there cannot be more items than characters. */
  function ReadQuery(s: string, m: Marks, e: Escape): Option<Query> {
    match Expect(s, "SELECT\n  ")
    case None => None
    case Some(s1) =>
      match ReadItems(s1, m, e, |s|)
      case None => None
      case Some(Lists(items, s2)) =>
        match Expect(s2, "\nFROM your_table\nGROUP BY ")
        case None => None
        case Some(s3) =>
          match ReadIdentifier(s3, m)
          case None => None
          case Some(Read(groupBy, s4)) =>
            match Expect(s4, "\nORDER BY ")
            case None => None
            case Some(s5) =>
              match ReadIdentifier(s5, m)
              case None => None
              case Some(Read(orderBy, s6)) => if s6 == ";" then Some(Query(items, groupBy, orderBy)) else None
  }

  // ---------- each reader undoes its writer ----------

  lemma AggReads(agg: P.Agg, rest: string)
    ensures ReadAgg(AggLabel(agg) + rest) == Some(Aggs(agg, rest))
  {
    Expected(AggLabel(agg), rest);
    var s := AggLabel(agg) + rest;
    if agg != P.Count { NotExpected(s, "COUNT", 0); }
    if agg != P.Count && agg != P.Sum { NotExpected(s, "SUM", 0); }
    if agg == P.Min || agg == P.Max { NotExpected(s, "AVG", 0); }
    if agg == P.Max { NotExpected(s, "MIN", 1); }
  }

  /** A text that cannot continue a quoted name. */
  predicate Ends(rest: string, m: Marks) { rest == "" || rest[0] != m.close }

  lemma OperandReads(value: Option<string>, constant: char, m: Marks, rest: string)
    requires Ends(rest, m) && constant != m.open
    ensures ReadOperand(Operand(value, constant, m) + rest, constant, m) == Some(Operands(value, rest))
  {
    if value.Some? {
      QuotedNameIsOneToken(value.value, m, rest);
      assert (QuoteIdentifier(value.value, m) + rest)[0] == m.open;
    } else {
      Cons(constant, rest);
    }
  }

  lemma CasedReads(agg: P.Agg, col: string, key: string, value: Option<string>, alias: string, m: Marks, e: Escape,
                   rest: string)
    requires Usable(m) && Ends(rest, m)
    ensures ReadCased(agg, QuoteIdentifier(col, m) + (" = " + (QuoteLiteral(key, e)
              + (" THEN " + (Operand(value, '1', m) + (" END) AS " + (QuoteIdentifier(alias, m) + rest)))))), m, e)
              == Some(Items(Cased(agg, col, key, value, alias), rest))
  {
    var s6 := QuoteIdentifier(alias, m) + rest;
    var s5 := " END) AS " + s6;
    var s4 := Operand(value, '1', m) + s5;
    var s3 := " THEN " + s4;
    var s2 := QuoteLiteral(key, e) + s3;
    var s1 := " = " + s2;
    QuotedNameIsOneToken(alias, m, rest);
    Expected(" END) AS ", s6);
    OperandReads(value, '1', m, s5);
    Expected(" THEN ", s4);
    QuotedValueIsOneToken(key, e, s3);
    Expected(" = ", s2);
    QuotedNameIsOneToken(col, m, s1);
  }

  lemma PlainReads(agg: P.Agg, value: Option<string>, alias: string, m: Marks, rest: string)
    requires Usable(m) && Ends(rest, m)
    ensures ReadPlain(agg, Operand(value, '*', m) + (") AS " + (QuoteIdentifier(alias, m) + rest)), m)
              == Some(Items(Plain(agg, value, alias), rest))
  {
    var s2 := QuoteIdentifier(alias, m) + rest;
    QuotedNameIsOneToken(alias, m, rest);
    Expected(") AS ", s2);
    OperandReads(value, '*', m, ") AS " + s2);
  }

  lemma NameIsNoAgg(field: string, m: Marks, rest: string)
    requires Usable(m)
    ensures ReadAgg(QuoteIdentifier(field, m) + rest) == None
  {
    var s := QuoteIdentifier(field, m) + rest;
    assert s[0] == m.open;
    NotExpected(s, "COUNT", 0);
    NotExpected(s, "SUM", 0);
    NotExpected(s, "AVG", 0);
    NotExpected(s, "MIN", 0);
    NotExpected(s, "MAX", 0);
  }

  lemma PlainIsNotCased(value: Option<string>, m: Marks, rest: string)
    requires Usable(m)
    ensures Expect("(" + (Operand(value, '*', m) + rest), "(CASE WHEN ") == None
  {
    var s := "(" + (Operand(value, '*', m) + rest);
    assert s[1] == if value.Some? then m.open else '*';
    NotExpected(s, "(CASE WHEN ", 1);
  }

  lemma ItemReads(item: Item, m: Marks, e: Escape, rest: string)
    requires Usable(m) && Ends(rest, m)
    ensures ReadItem(ItemText(item, m, e, rest), m, e)
         == Some(Items(item, rest))
  {
    match item {
      case Name(field) =>
        NameIsNoAgg(field, m, rest);
        QuotedNameIsOneToken(field, m, rest);
      case Cased(agg, col, key, value, alias) =>
        var body := QuoteIdentifier(col, m) + (" = " + (QuoteLiteral(key, e)
          + (" THEN " + (Operand(value, '1', m) + (" END) AS " + (QuoteIdentifier(alias, m) + rest))))));
        CasedReads(agg, col, key, value, alias, m, e, rest);
        Expected("(CASE WHEN ", body);
        AggReads(agg, "(CASE WHEN " + body);
      case Plain(agg, value, alias) =>
        var body := Operand(value, '*', m) + (") AS " + (QuoteIdentifier(alias, m) + rest));
        PlainReads(agg, value, alias, m, rest);
        PlainIsNotCased(value, m, ") AS " + (QuoteIdentifier(alias, m) + rest));
        Expected("(", body);
        AggReads(agg, "(" + body);
    }
  }

  lemma LastItem(s: string, m: Marks, e: Escape, fuel: nat, item: Item, rest: string)
    requires fuel > 0 && ReadItem(s, m, e) == Some(Items(item, rest)) && Expect(rest, ",\n  ") == None
    ensures ReadItems(s, m, e, fuel) == Some(Lists([item], rest))
  {}

  lemma NextItem(s: string, m: Marks, e: Escape, fuel: nat, item: Item, s1: string, s2: string, items: seq<Item>,
                 rest: string)
    requires fuel > 0 && ReadItem(s, m, e) == Some(Items(item, s1)) && Expect(s1, ",\n  ") == Some(s2)
    requires ReadItems(s2, m, e, fuel - 1) == Some(Lists(items, rest))
    ensures ReadItems(s, m, e, fuel) == Some(Lists([item] + items, rest))
  {}

  lemma LastItemReads(items: seq<Item>, m: Marks, e: Escape, rest: string, fuel: nat)
    requires Usable(m) && |items| == 1 && fuel > 0 && rest != "" && rest[0] == '\n'
    ensures ReadItems(ItemsText(items, m, e, rest), m, e, fuel) == Some(Lists(items, rest))
  {
    ItemReads(items[0], m, e, rest);
    NotExpected(rest, ",\n  ", 0);
    LastItem(ItemText(items[0], m, e, rest), m, e, fuel, items[0], rest);
    assert items == [items[0]];
  }

  lemma NextItemReads(items: seq<Item>, m: Marks, e: Escape, rest: string, fuel: nat)
    requires Usable(m) && |items| > 1 && fuel > 0
    requires ReadItems(ItemsText(items[1..], m, e, rest), m, e, fuel - 1) == Some(Lists(items[1..], rest))
    ensures ReadItems(ItemsText(items, m, e, rest), m, e, fuel) == Some(Lists(items, rest))
  {
    var tail := ItemsText(items[1..], m, e, rest);
    ItemReads(items[0], m, e, ",\n  " + tail);
    Expected(",\n  ", tail);
    NextItem(ItemsText(items, m, e, rest), m, e, fuel, items[0], ",\n  " + tail, tail, items[1..], rest);
    Uncons(items);
  }

  lemma {:induction false} ItemsRead(items: seq<Item>, m: Marks, e: Escape, rest: string, fuel: nat)
    requires Usable(m) && items != [] && fuel >= |items| && rest != "" && rest[0] == '\n'
    ensures ReadItems(ItemsText(items, m, e, rest), m, e, fuel) == Some(Lists(items, rest))
  {
    if |items| == 1 {
      LastItemReads(items, m, e, rest, fuel);
    } else {
      ItemsRead(items[1..], m, e, rest, fuel - 1);
      NextItemReads(items, m, e, rest, fuel);
    }
  }

  lemma {:induction false} TextIsLong(items: seq<Item>, m: Marks, e: Escape, rest: string)
    requires items != []
    ensures |ItemsText(items, m, e, rest)| >= |items|
  {
    if |items| > 1 {
      TextIsLong(items[1..], m, e, rest);
    }
  }

  /** Whatever the field names, pivot keys and aliases contain, the text of a query reads back as
      that query in every dialect. */
  lemma QueryReadsBack(q: Query, dialect: Option<Dialect>)
    requires q.select != []
    ensures ReadQuery(QueryText(q, MarksOf(dialect), EscapeOf(dialect)), MarksOf(dialect), EscapeOf(dialect)) == Some(q)
  {
    var m, e := MarksOf(dialect), EscapeOf(dialect);
    var s5 := QuoteIdentifier(q.orderBy, m) + ";";
    var s4 := "\nORDER BY " + s5;
    var s3 := QuoteIdentifier(q.groupBy, m) + s4;
    var s2 := "\nFROM your_table\nGROUP BY " + s3;
    var s1 := ItemsText(q.select, m, e, s2);
    QuotedNameIsOneToken(q.orderBy, m, ";");
    Expected("\nORDER BY ", s5);
    QuotedNameIsOneToken(q.groupBy, m, s4);
    Expected("\nFROM your_table\nGROUP BY ", s3);
    Expected("SELECT\n  ", s1);
    TextIsLong(q.select, m, e, s2);
    ItemsRead(q.select, m, e, s2, |QueryText(q, m, e)|);
  }
}
