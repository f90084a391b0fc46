/**
 The member CSV the leader dashboard downloads. Every field is enclosed in
 double quotes with each inner quote doubled (the escaping rule of section 2,
 rule 7, of RFC 4180); fields are joined with ',' and records with a bare
 '\n' (not the CRLF of rule 2), with no trailing line break. A reader for
 exactly that format is defined beside it to state the round trip.
 */
module Csv {
  import opened Wrappers
  import opened SessionTypes

  /** One character of a field as it is written inside the quotes. */
  function EscapeChar(c: char): string
  {
    if c == '"' then "\"\"" else [c]
  }

  /** `field.replace(/"/g, '""')`. */
  function DoubleQuotes(f: string): string
  {
    if f == [] then [] else EscapeChar(f[0]) + DoubleQuotes(f[1..])
  }

  /** Doubling adds exactly one character per quote in the field. */
  lemma {:induction false} DoubleQuotesLength(f: string)
    ensures |DoubleQuotes(f)| == |f| + multiset(f)['"']
  {
    if f != [] {
      DoubleQuotesLength(f[1..]);
      HeadTail(f);
      assert multiset(f) == multiset([f[0]]) + multiset(f[1..]);
    }
  }

  /** The quoted form of one field. */
  function EscapeField(f: string): (r: string)
    ensures |r| >= 2 && r[0] == '"' && r[|r| - 1] == '"'
  {
    "\"" + DoubleQuotes(f) + "\""
  }

  /** `fields.join(sep)`. */
  function JoinWith(parts: seq<string>, sep: char): string
  {
    if parts == [] then []
    else if |parts| == 1 then parts[0]
    else parts[0] + [sep] + JoinWith(parts[1..], sep)
  }

  function EscapeAll(fields: seq<string>): seq<string>
  {
    seq(|fields|, i requires 0 <= i < |fields| => EscapeField(fields[i]))
  }

  /** One record: the escaped fields joined by commas. */
  function Row(fields: seq<string>): string
  {
    JoinWith(EscapeAll(fields), ',')
  }

  function Rows(table: seq<seq<string>>): seq<string>
  {
    seq(|table|, i requires 0 <= i < |table| => Row(table[i]))
  }

  /** The whole text: the records joined by line feeds. */
  function CsvText(table: seq<seq<string>>): string
  {
    JoinWith(Rows(table), '\n')
  }

  /** `member.role === 'leader' ? 'Leader' : 'Member'`. */
  function RoleLabel(role: Option<Role>): (r: string)
    ensures r == "Leader" <==> role == Some(LeaderRole)
    ensures r == "Member" <==> role != Some(LeaderRole)
  {
    if role == Some(LeaderRole) then "Leader" else "Member"
  }

  const Header: seq<string> := ["Name", "Role"]

  function MemberRow(m: Member): seq<string>
  {
    [m.name, RoleLabel(m.role)]
  }

  function MemberRows(ms: seq<Member>): seq<seq<string>>
  {
    seq(|ms|, i requires 0 <= i < |ms| => MemberRow(ms[i]))
  }

  /** The table `handleDownloadCSV` writes: the header, then one row per member in list order. */
  function MemberTable(ms: seq<Member>): seq<seq<string>>
  {
    [Header] + MemberRows(ms)
  }

  /** The CSV text of `handleDownloadCSV`. */
  function MembersCsv(ms: seq<Member>): string
  {
    CsvText(MemberTable(ms))
  }

  // ---------------------------------------------------------------------
  // Reading the format back.

  /**
   Reads the inside of a quoted field, `s` starting just after the opening
   quote: a doubled quote stands for one quote, a single quote closes the
   field. Gives the field and what follows the closing quote.
   */
  function ParseQuotedBody(s: string): (r: Option<(string, string)>)
    ensures r.Some? ==> |r.value.1| < |s|
  {
    if s == [] then None
    else if s[0] == '"' then
      if |s| >= 2 && s[1] == '"' then
        match ParseQuotedBody(s[2..])
        case None => None
        case Some((f, rest)) => Some(("\"" + f, rest))
      else Some(([], s[1..]))
    else
      match ParseQuotedBody(s[1..])
      case None => None
      case Some((f, rest)) => Some(([s[0]] + f, rest))
  }

  /** Reads one quoted field at the start of `s`. */
  function ParseField(s: string): (r: Option<(string, string)>)
    ensures r.Some? ==> |r.value.1| < |s|
  {
    if s != [] && s[0] == '"' then ParseQuotedBody(s[1..]) else None
  }

  /**
   Strips the outer quotes of one escaped field and collapses each doubled
   quote; `None` when `e` is not one well-formed quoted field.
   */
  function UnescapeField(e: string): Option<string>
  {
    match ParseField(e)
    case Some((f, rest)) => if rest == [] then Some(f) else None
    case None => None
  }

  /**
   Reads one record: its fields, the text after its terminator, and whether
   a line feed (rather than the end of the text) ended it.
   */
  function ParseRecord(s: string): (r: Option<(seq<string>, string, bool)>)
    ensures r.Some? ==> |r.value.1| < |s|
    decreases |s|
  {
    match ParseField(s)
    case None => None
    case Some((f, rest)) =>
      if rest == [] then Some(([f], [], false))
      else if rest[0] == ',' then
        match ParseRecord(rest[1..])
        case None => None
        case Some((fs, rest', more)) => Some(([f] + fs, rest', more))
      else if rest[0] == '\n' then Some(([f], rest[1..], true))
      else None
  }

  /** Reads a whole text of records; a trailing line feed is rejected. */
  function ParseCsv(s: string): Option<seq<seq<string>>>
    decreases |s|
  {
    match ParseRecord(s)
    case None => None
    case Some((fs, rest, more)) =>
      if !more then Some([fs])
      else match ParseCsv(rest)
        case None => None
        case Some(rs) => Some([fs] + rs)
  }

  // ---------------------------------------------------------------------
  // Round trips.

  lemma ParseQuotedBodyPlain(c: char, t: string, f: string, rest: string)
    requires c != '"' && ParseQuotedBody(t) == Some((f, rest))
    ensures ParseQuotedBody([c] + t) == Some(([c] + f, rest))
  {
    assert ([c] + t)[1..] == t;
  }

  lemma ParseQuotedBodyDoubled(t: string, f: string, rest: string)
    requires ParseQuotedBody(t) == Some((f, rest))
    ensures ParseQuotedBody("\"\"" + t) == Some(("\"" + f, rest))
  {
    assert ("\"\"" + t)[2..] == t;
  }

  /** Escaping the first character and then the rest, followed by `closing`. */
  lemma DoubleQuotesCons(f: string, closing: string)
    requires f != []
    ensures DoubleQuotes(f) + closing == EscapeChar(f[0]) + (DoubleQuotes(f[1..]) + closing)
  {
    ConcatAssoc(EscapeChar(f[0]), DoubleQuotes(f[1..]), closing);
  }

  lemma ConcatAssoc(a: string, b: string, c: string)
    ensures (a + b) + c == a + (b + c)
  {
  }

  /** Reading one escaped character in front of a quoted body. */
  lemma QuotedCharStep(c: char, t: string, f: string, rest: string)
    requires ParseQuotedBody(t) == Some((f, rest))
    ensures ParseQuotedBody(EscapeChar(c) + t) == Some(([c] + f, rest))
  {
    if c == '"' {
      ParseQuotedBodyDoubled(t, f, rest);
    } else {
      ParseQuotedBodyPlain(c, t, f, rest);
    }
  }

  lemma QuotedBodyStep(f: string, rest: string)
    requires f != []
    requires ParseQuotedBody(DoubleQuotes(f[1..]) + ("\"" + rest)) == Some((f[1..], rest))
    ensures ParseQuotedBody(DoubleQuotes(f) + ("\"" + rest)) == Some((f, rest))
  {
    DoubleQuotesCons(f, "\"" + rest);
    QuotedCharStep(f[0], DoubleQuotes(f[1..]) + ("\"" + rest), f[1..], rest);
    HeadTail(f);
  }

  lemma HeadTail(f: string)
    requires f != []
    ensures [f[0]] + f[1..] == f
  {
  }

  lemma {:induction false} QuotedBodyRoundTrip(f: string, rest: string)
    requires rest == [] || rest[0] != '"'
    ensures ParseQuotedBody(DoubleQuotes(f) + ("\"" + rest)) == Some((f, rest))
  {
    if f == [] {
      assert DoubleQuotes(f) + ("\"" + rest) == "\"" + rest;
      assert ("\"" + rest)[1..] == rest;
    } else {
      QuotedBodyRoundTrip(f[1..], rest);
      QuotedBodyStep(f, rest);
    }
  }

  /** Reading an escaped field, followed by anything but a quote, gives the field back. */
  lemma FieldRoundTrip(f: string, rest: string)
    requires rest == [] || rest[0] != '"'
    ensures ParseField(EscapeField(f) + rest) == Some((f, rest))
  {
    QuotedBodyRoundTrip(f, rest);
    assert (EscapeField(f) + rest)[1..] == DoubleQuotes(f) + ("\"" + rest);
  }

  /** Unescaping an escaped field recovers it, so escaping is injective. */
  lemma UnescapeEscape(f: string)
    ensures UnescapeField(EscapeField(f)) == Some(f)
  {
    FieldRoundTrip(f, []);
    assert EscapeField(f) + [] == EscapeField(f);
  }

  lemma EscapeInjective(f: string, g: string)
    requires EscapeField(f) == EscapeField(g)
    ensures f == g
  {
    UnescapeEscape(f);
    UnescapeEscape(g);
  }

  lemma RowCons(fields: seq<string>)
    requires |fields| > 1
    ensures Row(fields) == EscapeField(fields[0]) + ([','] + Row(fields[1..]))
  {
    assert EscapeAll(fields)[1..] == EscapeAll(fields[1..]);
  }

  lemma CsvTextCons(table: seq<seq<string>>)
    requires |table| > 1
    ensures CsvText(table) == Row(table[0]) + ("\n" + CsvText(table[1..]))
  {
    assert Rows(table)[1..] == Rows(table[1..]);
  }

  /** A record of one field, ended by the end of the text or by a line feed. */
  lemma SingleFieldRecord(field: string, more: bool, rest: string)
    requires !more ==> rest == []
    ensures ParseRecord(Row([field]) + (if more then "\n" + rest else [])) == Some(([field], rest, more))
  {
    var tail := if more then "\n" + rest else [];
    assert EscapeAll([field]) == [EscapeField(field)];
    FieldRoundTrip(field, tail);
    if more {
      assert tail[1..] == rest;
    }
  }

  /** A record of several fields reads as its first field and then the record of the others. */
  lemma FieldThenRecord(fields: seq<string>, tail: string)
    requires |fields| > 1
    ensures ParseRecord(Row(fields) + tail) ==
      match ParseRecord(Row(fields[1..]) + tail)
      case None => None
      case Some((fs, rest', more)) => Some(([fields[0]] + fs, rest', more))
  {
    var next := Row(fields[1..]) + tail;
    RowCons(fields);
    ConcatAssoc(EscapeField(fields[0]), [','] + Row(fields[1..]), tail);
    ConcatAssoc([','], Row(fields[1..]), tail);
    FieldRoundTrip(fields[0], [','] + next);
    assert ([','] + next)[1..] == next;
  }

  /** Reading a record, followed by the end of the text or by a line feed and more text. */
  lemma {:induction false} RecordRoundTrip(fields: seq<string>, more: bool, rest: string)
    requires fields != []
    requires !more ==> rest == []
    ensures ParseRecord(Row(fields) + (if more then "\n" + rest else [])) == Some((fields, rest, more))
  {
    if |fields| == 1 {
      SingleFieldRecord(fields[0], more, rest);
      assert [fields[0]] == fields;
    } else {
      FieldThenRecord(fields, if more then "\n" + rest else []);
      RecordRoundTrip(fields[1..], more, rest);
      assert [fields[0]] + fields[1..] == fields;
    }
  }

  /** Reading the text of a table with at least one record and no empty record gives the table back. */
  lemma {:induction false} CsvRoundTrip(table: seq<seq<string>>)
    requires table != []
    requires forall i :: 0 <= i < |table| ==> table[i] != []
    ensures ParseCsv(CsvText(table)) == Some(table)
  {
    if |table| == 1 {
      assert Rows(table) == [Row(table[0])];
      assert CsvText(table) == Row(table[0]);
      RecordRoundTrip(table[0], false, []);
      assert Row(table[0]) + [] == Row(table[0]);
      assert [table[0]] == table;
    } else {
      CsvTextCons(table);
      RecordRoundTrip(table[0], true, CsvText(table[1..]));
      CsvRoundTrip(table[1..]);
      assert [table[0]] + table[1..] == table;
    }
  }

  /**
   The downloaded CSV reads back as the header record followed by one
   (name, role label) record per member, in list order: one record more
   than there are members.
   */
  lemma MembersCsvRoundTrip(ms: seq<Member>)
    ensures ParseCsv(MembersCsv(ms)) == Some(MemberTable(ms))
    ensures |MemberTable(ms)| == 1 + |ms| && MemberTable(ms)[0] == ["Name", "Role"]
    ensures forall i :: 0 <= i < |ms| ==> MemberTable(ms)[i + 1] == [ms[i].name, RoleLabel(ms[i].role)]
  {
    CsvRoundTrip(MemberTable(ms));
  }

  /** A field without quotes escapes to itself between two quotes. */
  lemma {:induction false} DoubleQuotesPlain(f: string)
    requires forall i :: 0 <= i < |f| ==> f[i] != '"'
    ensures DoubleQuotes(f) == f
  {
    if f != [] {
      DoubleQuotesPlain(f[1..]);
      assert [f[0]] + f[1..] == f;
    }
  }

  lemma {:induction false} JoinWithLast(parts: seq<string>, sep: char)
    requires parts != [] && parts[|parts| - 1] != []
    ensures var j := JoinWith(parts, sep);
      |j| >= |parts[|parts| - 1]| && j[|j| - 1] == parts[|parts| - 1][|parts[|parts| - 1]| - 1]
  {
    if |parts| > 1 {
      JoinWithLast(parts[1..], sep);
    }
  }

  /** The first line of the download, `"Name","Role"`. */
  const HeaderLine: string := ['"'] + "Name" + ['"', ',', '"'] + "Role" + ['"']

  lemma RowPair(a: string, b: string)
    ensures Row([a, b]) == EscapeField(a) + [','] + EscapeField(b)
  {
    var parts := EscapeAll([a, b]);
    assert |parts| == 2 && parts[0] == EscapeField(a) && parts[1] == EscapeField(b);
    assert |parts[1..]| == 1 && parts[1..][0] == EscapeField(b);
    assert JoinWith(parts[1..], ',') == EscapeField(b);
  }

  /** Two quote-free fields make the record `"a","b"`. */
  lemma PlainPairRow(a: string, b: string)
    requires forall i :: 0 <= i < |a| ==> a[i] != '"'
    requires forall i :: 0 <= i < |b| ==> b[i] != '"'
    ensures Row([a, b]) == ['"'] + a + ['"', ',', '"'] + b + ['"']
  {
    DoubleQuotesPlain(a);
    DoubleQuotesPlain(b);
    RowPair(a, b);
  }

  lemma HeaderRow()
    ensures Row(Header) == HeaderLine && |HeaderLine| == 13
  {
    PlainPairRow("Name", "Role");
  }

  /**
   The text starts with the header line `"Name","Role"`, a line feed follows it
   exactly when there are members, and the text does not end with a line feed.
   */
  lemma MembersCsvHeaderLine(ms: seq<Member>)
    ensures var text := MembersCsv(ms);
      && |text| >= |HeaderLine| && text[..|HeaderLine|] == HeaderLine
      && (ms == [] <==> |text| == |HeaderLine|)
      && (ms != [] ==> text[|HeaderLine|] == '\n')
      && text[|text| - 1] == '"'
  {
    if ms == [] {
      NoMembersCsv();
    } else {
      var t := MemberTable(ms);
      MemberTableShape(ms);
      HeaderRow();
      CsvTextCons(t);
      CsvTextEndsWithQuote(t[1..]);
      PrefixOfConcat(Row(t[0]), "\n" + CsvText(t[1..]));
    }
  }

  lemma MemberTableShape(ms: seq<Member>)
    ensures var t := MemberTable(ms);
      && |t| == 1 + |ms| && t[0] == Header && t[1..] == MemberRows(ms)
      && forall i :: 0 <= i < |t[1..]| ==> t[1..][i] != []
  {
  }

  /** With no members the download is the header line alone. */
  lemma NoMembersCsv()
    ensures MembersCsv([]) == HeaderLine && HeaderLine[|HeaderLine| - 1] == '"'
  {
    HeaderRow();
    assert Rows(MemberTable([])) == [Row(Header)];
  }

  lemma PrefixOfConcat(a: string, b: string)
    requires b != []
    ensures |a + b| > |a| && (a + b)[..|a|] == a && (a + b)[|a|] == b[0]
    ensures (a + b)[|a + b| - 1] == b[|b| - 1]
  {
  }

  lemma RowEndsWithQuote(fields: seq<string>)
    requires fields != []
    ensures |Row(fields)| >= 2 && Row(fields)[|Row(fields)| - 1] == '"'
  {
    JoinWithLast(EscapeAll(fields), ',');
  }

  lemma CsvTextEndsWithQuote(table: seq<seq<string>>)
    requires table != []
    requires forall i :: 0 <= i < |table| ==> table[i] != []
    ensures |CsvText(table)| >= 2 && CsvText(table)[|CsvText(table)| - 1] == '"'
  {
    RowEndsWithQuote(table[|table| - 1]);
    JoinWithLast(Rows(table), '\n');
  }
}
