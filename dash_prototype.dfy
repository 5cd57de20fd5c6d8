/**
 * The first prototype of the dashboard: a map whose click or selection is
 * echoed as text ("Country: [...]") and drives a bar chart of the requested
 * territories whose height grows by 200 pixels per requested location.
 *
 * The text shows Python's `repr` of the list of names. A name is written
 * between single quotes, or double quotes when it holds a single quote and
 * no double quote; backslashes, the chosen quote, tab, line feed, carriage
 * return and the other ASCII control characters are escaped.
 */
module DashPrototype {
  import opened Common
  import opened Payload
  import opened Rows
  import Chart

  const NoneText := "None"
  const CountryPrefix := "Country: "
  const PrototypeWidth := 800

  /** What `chart_by_country` puts in its output div. */
  datatype PrototypeView =
    | NoneMessage
    | BarChart(rows: seq<Row<Attainment>>, height: int, width: int)

  /** Lower-case hexadecimal digit of `0 <= n < 16`. */
  function HexDigit(n: nat): char
    requires n < 16
  {
    "0123456789abcdef"[n]
  }

  /** The value of a lower-case hexadecimal digit, if `c` is one. */
  function HexValue(c: char): Option<nat>
  {
    if '0' <= c <= '9' then Some(c as nat - '0' as nat)
    else if 'a' <= c <= 'f' then Some(c as nat - 'a' as nat + 10)
    else None
  }

  /** The quote `repr` chooses for a string. */
  function QuoteFor(s: string): (q: char)
    ensures q == '\'' || q == '"'
    ensures q == '"' <==> '\'' in s && '"' !in s
  {
    if '\'' in s && '"' !in s then '"' else '\''
  }

  /** How `repr` writes one character inside quotes `q`. */
  function EscapeChar(c: char, q: char): (r: string)
    ensures r != [] && (r[0] == '\\' <==> r != [c])
  {
    if c == q || c == '\\' then ['\\', c]
    else if c == '\t' then "\\t"
    else if c == '\n' then "\\n"
    else if c == '\r' then "\\r"
    else if c < ' ' || c as int == 0x7f then ['\\', 'x', HexDigit(c as nat / 16), HexDigit(c as nat % 16)]
    else [c]
  }

  /** The text between the quotes of `repr(s)`. */
  function Escape(s: string, q: char): (r: string)
    ensures |r| >= |s|
    ensures r == [] <==> s == []
  {
    if s == [] then [] else EscapeChar(s[0], q) + Escape(s[1..], q)
  }

  /** `repr(s)` for a `str`. */
  function StrRepr(s: string): (r: string)
    ensures |r| >= |s| + 2
    ensures r[0] == r[|r| - 1] == QuoteFor(s)
  {
    [QuoteFor(s)] + Escape(s, QuoteFor(s)) + [QuoteFor(s)]
  }

  /**
   * Reads a string literal's body from `e` up to its closing quote `q`:
   * the string it denotes and the text after the quote.
   */
  function ReadBody(e: string, q: char): (r: Option<(string, string)>)
    ensures r.Some? ==> |r.value.1| < |e|
    decreases |e|
  {
    if e == [] then None
    else if e[0] == q then Some(([], e[1..]))
    else if e[0] != '\\' then Prepend(e[0], ReadBody(e[1..], q))
    else if |e| < 2 then None
    else if e[1] == '\\' || e[1] == '\'' || e[1] == '"' then Prepend(e[1], ReadBody(e[2..], q))
    else if e[1] == 't' then Prepend('\t', ReadBody(e[2..], q))
    else if e[1] == 'n' then Prepend('\n', ReadBody(e[2..], q))
    else if e[1] == 'r' then Prepend('\r', ReadBody(e[2..], q))
    else if e[1] == 'x' && |e| >= 4 && HexValue(e[2]).Some? && HexValue(e[3]).Some? then
      Prepend((16 * HexValue(e[2]).value + HexValue(e[3]).value) as char, ReadBody(e[4..], q))
    else None
  }

  function Prepend(c: char, read: Option<(string, string)>): (r: Option<(string, string)>)
    ensures r.Some? <==> read.Some?
    ensures r.Some? ==> r.value == ([c] + read.value.0, read.value.1)
  {
    match read
    case None => None
    case Some((t, rest)) => Some(([c] + t, rest))
  }

  /** Reads a string literal quoted with `'` or `"` from the front of `e`. */
  function ReadStr(e: string): (r: Option<(string, string)>)
    ensures r.Some? ==> |r.value.1| < |e|
  {
    if e != [] && (e[0] == '\'' || e[0] == '"') then ReadBody(e[1..], e[0]) else None
  }

  lemma HexRoundTrip(n: nat)
    requires n < 16
    ensures HexValue(HexDigit(n)) == Some(n)
  {
  }

  /** A character written as itself reads back as itself. */
  lemma ReadPlain(c: char, q: char, tail: string)
    requires c != q && c != '\\'
    ensures ReadBody([c] + tail, q) == Prepend(c, ReadBody(tail, q))
  {
    assert ([c] + tail)[1..] == tail;
  }

  /** A two-character escape `\d` reads back as the character `c` it stands for. */
  lemma ReadPair(c: char, d: char, q: char, tail: string)
    requires q == '\'' || q == '"'
    requires || ((d == '\\' || d == '\'' || d == '"') && c == d)
             || (d == 't' && c == '\t') || (d == 'n' && c == '\n') || (d == 'r' && c == '\r')
    ensures ReadBody(['\\', d] + tail, q) == Prepend(c, ReadBody(tail, q))
  {
    assert (['\\', d] + tail)[2..] == tail;
  }

  /** A hexadecimal escape `\xhh` reads back as the character of that code. */
  lemma ReadHex(c: char, q: char, tail: string)
    requires q == '\'' || q == '"'
    requires c as nat < 256
    ensures ReadBody(['\\', 'x', HexDigit(c as nat / 16), HexDigit(c as nat % 16)] + tail, q)
         == Prepend(c, ReadBody(tail, q))
  {
    var e := ['\\', 'x', HexDigit(c as nat / 16), HexDigit(c as nat % 16)] + tail;
    HexRoundTrip(c as nat / 16);
    HexRoundTrip(c as nat % 16);
    assert e[4..] == tail;
  }

  /** Reading one escaped character back gives the character. */
  lemma ReadChar(c: char, q: char, tail: string)
    requires q == '\'' || q == '"'
    ensures ReadBody(EscapeChar(c, q) + tail, q) == Prepend(c, ReadBody(tail, q))
  {
    if c == q || c == '\\' {
      ReadPair(c, c, q, tail);
    } else if c == '\t' {
      ReadPair(c, 't', q, tail);
    } else if c == '\n' {
      ReadPair(c, 'n', q, tail);
    } else if c == '\r' {
      ReadPair(c, 'r', q, tail);
    } else if c < ' ' || c as int == 0x7f {
      ReadHex(c, q, tail);
    } else {
      ReadPlain(c, q, tail);
    }
  }

  lemma Regroup(a: string, b: string, c: string, d: string)
    ensures (a + b) + c + d == a + (b + c + d)
  {
  }

  /**
   * The escaped text of `repr` followed by its closing quote reads back as
   * the original string, and reading stops right after that quote.
   */
  lemma {:induction false} ReadEscaped(s: string, q: char, tail: string)
    requires q == '\'' || q == '"'
    ensures ReadBody(Escape(s, q) + [q] + tail, q) == Some((s, tail))
  {
    if s == [] {
      assert Escape(s, q) + [q] + tail == [q] + tail;
    } else {
      var rest := Escape(s[1..], q) + [q] + tail;
      ReadEscaped(s[1..], q, tail);
      assert Escape(s, q) == EscapeChar(s[0], q) + Escape(s[1..], q);
      Regroup(EscapeChar(s[0], q), Escape(s[1..], q), [q], tail);
      ReadChar(s[0], q, rest);
      assert s == [s[0]] + s[1..];
    }
  }

  /** `repr` of a string reads back as the string, whatever follows it. */
  lemma StrReprRoundTrip(s: string, tail: string)
    ensures ReadStr(StrRepr(s) + tail) == Some((s, tail))
  {
    var q := QuoteFor(s);
    assert StrRepr(s) + tail == [q] + (Escape(s, q) + [q] + tail);
    ReadEscaped(s, q, tail);
  }

  /** A character that is neither a quote, a backslash nor a control character. */
  predicate PlainChar(c: char)
  {
    c != '\'' && c != '"' && c != '\\' && ' ' <= c && c as int != 0x7f
  }

  /** A name without quotes, backslashes or control characters is shown as it is. */
  lemma {:induction false} PlainEscape(s: string, q: char)
    requires q == '\'' || q == '"'
    requires forall i :: 0 <= i < |s| ==> PlainChar(s[i])
    ensures Escape(s, q) == s
  {
    if s != [] {
      assert PlainChar(s[0]);
      assert EscapeChar(s[0], q) == [s[0]];
      assert forall i :: 0 <= i < |s[1..]| ==> s[1..][i] == s[i + 1];
      PlainEscape(s[1..], q);
      assert s == [s[0]] + s[1..];
    }
  }

  /** The items of `repr(list)`, separated by ", ". */
  function JoinReprs(names: seq<string>): (r: string)
    ensures names == [] <==> r == []
    ensures names != [] ==> |r| >= 4 * |names| - 2
  {
    if names == [] then ""
    else if |names| == 1 then StrRepr(names[0])
    else StrRepr(names[0]) + ", " + JoinReprs(names[1..])
  }

  /** `repr(list)` for a list of `str`. */
  function ListRepr(names: seq<string>): (r: string)
    ensures |r| >= 2 && r[0] == '[' && r[|r| - 1] == ']'
    ensures r == "[]" <==> names == []
    ensures ParseList(r) == Some(names)
  {
    ParseListRepr(names);
    "[" + JoinReprs(names) + "]"
  }

  /** Reads the items of a list display after its `[`, up to its `]`. */
  function ParseItems(e: string): Option<seq<string>>
    decreases |e|
  {
    match ReadStr(e)
    case None => None
    case Some((item, rest)) =>
      if rest == "]" then Some([item])
      else if |rest| >= 2 && rest[..2] == ", " then
        match ParseItems(rest[2..])
        case None => None
        case Some(items) => Some([item] + items)
      else None
  }

  /** Reads a list display of string literals, such as `['A', "B's"]`. */
  function ParseList(t: string): Option<seq<string>>
  {
    if t == "[]" then Some([])
    else if t != [] && t[0] == '[' then ParseItems(t[1..])
    else None
  }

  /** The last item of a list display, followed by `]`. */
  lemma ParseLast(item: string)
    ensures ParseItems(StrRepr(item) + "]") == Some([item])
  {
    StrReprRoundTrip(item, "]");
  }

  /** An item followed by ", " is read, then the items after it. */
  lemma ParseCons(item: string, more: string)
    ensures ParseItems(StrRepr(item) + ", " + more)
         == match ParseItems(more) case None => None case Some(items) => Some([item] + items)
  {
    var rest := ", " + more;
    assert StrRepr(item) + ", " + more == StrRepr(item) + rest;
    StrReprRoundTrip(item, rest);
    assert rest != "]" && rest[..2] == ", " && rest[2..] == more;
  }

  lemma Reassociate(a: string, b: string, c: string, d: string)
    ensures a + b + c + d == a + b + (c + d)
  {
  }

  /** The items of `repr(list)` read back as the list. */
  lemma {:induction false} ParseJoinReprs(names: seq<string>)
    requires names != []
    ensures ParseItems(JoinReprs(names) + "]") == Some(names)
  {
    if |names| == 1 {
      ParseLast(names[0]);
      assert names == [names[0]];
    } else {
      var head := StrRepr(names[0]);
      var more := JoinReprs(names[1..]) + "]";
      assert JoinReprs(names) == head + ", " + JoinReprs(names[1..]);
      Reassociate(head, ", ", JoinReprs(names[1..]), "]");
      ParseCons(names[0], more);
      ParseJoinReprs(names[1..]);
      assert names == [names[0]] + names[1..];
    }
  }

  /** `repr(list)` reads back as the list. */
  lemma ParseListRepr(names: seq<string>)
    ensures ParseList("[" + JoinReprs(names) + "]") == Some(names)
  {
    var t := "[" + JoinReprs(names) + "]";
    if names != [] {
      assert t != "[]";
      assert t[1..] == JoinReprs(names) + "]";
      ParseJoinReprs(names);
    }
  }

  /**
   * `display_click_data(clickData, selectedData)`: "None" when both payloads
   * are `None`, otherwise "Country: " and the list of requested locations.
   */
  function DisplayClickData(clickData: Option<PointList>, selectedData: Option<PointList>)
    : (r: Result<string, PayloadError>)
    ensures r == Success(NoneText) <==> clickData.None? && selectedData.None?
    ensures r.Failure? <==> Decode(clickData, selectedData).Failure?
    ensures r.Success? && r != Success(NoneText) ==>
              && Decode(clickData, selectedData).Success?
              && Decode(clickData, selectedData).value.Requested?
              && r.value == CountryPrefix + ListRepr(Decode(clickData, selectedData).value.locations)
              && r.value[..|CountryPrefix|] == CountryPrefix
              && ParseList(r.value[|CountryPrefix|..]) == Some(Decode(clickData, selectedData).value.locations)
  {
    match Decode(clickData, selectedData)
    case Failure(e) => Failure(e)
    case Success(NoPayload) => Success(NoneText)
    case Success(Requested(country)) =>
      var text := CountryPrefix + ListRepr(country);
      assert |text| > |NoneText|;
      assert text[|CountryPrefix|..] == ListRepr(country);
      Success(text)
  }

  /** A click on a plainly named territory shows "Country: ['<name>']". */
  lemma DisplayPlainClick(name: string)
    requires forall i :: 0 <= i < |name| ==> PlainChar(name[i])
    ensures DisplayClickData(Some(PointList([Point(name)])), None) == Success("Country: ['" + name + "']")
  {
    PlainEscape(name, '\'');
    assert QuoteFor(name) == '\'';
    assert StrRepr(name) == "'" + name + "'";
    assert ListRepr([name]) == "['" + name + "']";
    var click := Some(PointList([Point(name)]));
    assert Decode(click, None) == Success(Requested([name]));
    assert DisplayClickData(click, None).Success?;
    assert DisplayClickData(click, None) != Success(NoneText);
    assert CountryPrefix + ("['" + name + "']") == "Country: ['" + name + "']";
  }

  /**
   * `chart_by_country` of the prototype: the text "None" when both payloads
   * are `None`; otherwise the rows of the requested territories and a
   * height of 200 pixels plus 200 per requested location, which leaves at
   * least 200 pixels for every territory actually drawn.
   */
  function PrototypeChart(ratio: seq<Row<Attainment>>, clickData: Option<PointList>, selectedData: Option<PointList>)
    : (r: Result<PrototypeView, PayloadError>)
    ensures r == Success(NoneMessage) <==> clickData.None? && selectedData.None?
    ensures r.Failure? <==> Decode(clickData, selectedData).Failure?
    ensures r.Success? && r.value.BarChart? ==>
              && Decode(clickData, selectedData).Success?
              && Decode(clickData, selectedData).value.Requested?
              && var country := Decode(clickData, selectedData).value.locations;
              && (forall x :: x in r.value.rows <==> x in ratio && x.territory in country)
              && (forall x :: multiset(r.value.rows)[x] == if x.territory in country then multiset(ratio)[x] else 0)
              && Subsequence(r.value.rows, ratio)
              && r.value.height == 200 + 200 * |country|
              && r.value.height >= 200 + 200 * |Territories(r.value.rows)|
              && r.value.width == PrototypeWidth
  {
    match Decode(clickData, selectedData)
    case Failure(e) => Failure(e)
    case Success(NoPayload) => Success(NoneMessage)
    case Success(Requested(country)) =>
      var ratioCountry := FilterIn(ratio, country);
      TerritoriesOfFilter(ratio, country);
      assert forall x :: x in ratio ==> multiset(ratio)[x] > 0;
      assert forall x :: x in ratioCountry <==> multiset(ratioCountry)[x] > 0;
      Success(BarChart(ratioCountry, 200 + 200 * |country|, PrototypeWidth))
  }

  /** The prototype and the later bar chart draw the same rows. */
  lemma SameRowsAsChart(ratio: seq<Row<Attainment>>, clickData: Option<PointList>, selectedData: Option<PointList>)
    requires PrototypeChart(ratio, clickData, selectedData).Success?
    requires PrototypeChart(ratio, clickData, selectedData).value.BarChart?
    ensures Chart.ChartByCountry(ratio, clickData, selectedData).Success?
    ensures Chart.ChartByCountry(ratio, clickData, selectedData).value.Graph?
    ensures Chart.ChartByCountry(ratio, clickData, selectedData).value.rows
         == PrototypeChart(ratio, clickData, selectedData).value.rows
  {
  }

  /**
   * The prototype counts requested locations, not territories drawn: the
   * same territory selected twice gets 600 pixels for a single facet.
   */
  lemma HeightCountsRequests(name: string, row: Attainment)
    ensures var p := PointList([Point(name), Point(name)]);
            var r := PrototypeChart([Row(name, row)], None, Some(p));
            && r.Success? && r.value.BarChart?
            && r.value.height == 600 && |Territories(r.value.rows)| == 1
  {
    var p := PointList([Point(name), Point(name)]);
    var r := PrototypeChart([Row(name, row)], None, Some(p));
    assert Decode(None, Some(p)).value.locations == [name, name];
    assert Row(name, row) in r.value.rows;
    assert Territories(r.value.rows) == {name};
  }
}
