/**
  The query of the hosts request in active_hosts_rux.py: built from the page size and the
  state filter, then given the `page` cursor of each `next` link. The link is cut the way
  `urlparse` finds its query (before the first '#', after the first '?') and the fields are
  read the way `parse_qs` reads them by default: split at '&', a field kept only with a
  '=' and a non-empty value, '+' read as a space and %XX escapes decoded.
 */
module QueryParams {

  import opened Wrappers
  import opened Text

  /** The `params` dict: `page_size` always, `state` and `page` when set. */
  datatype Query = Query(pageSize: int, state: Option<string>, page: Option<string>)

  /** The first query: the page size, and the state unless the filter is "all". */
  function InitialQuery(pageSize: int, state: string): (q: Query)
    ensures q.pageSize == pageSize && q.page.None?
    ensures q.state.Some? <==> state != "all"
    ensures q.state.Some? ==> q.state.value == state
  {
    Query(pageSize, if state != "all" then Some(state) else None, None)
  }

  /** `urlparse(url).query`: what follows the first '?' in the part before the first '#'. */
  function QueryString(url: string): string {
    match After(Before(url, '#'), '?')
    case None => ""
    case Some(q) => q
  }

  /** The value of a hexadecimal digit of either case. */
  function HexDigit(c: char): Option<int> {
    if '0' <= c <= '9' then Some(c as int - '0' as int)
    else if 'a' <= c <= 'f' then Some(c as int - 'a' as int + 10)
    else if 'A' <= c <= 'F' then Some(c as int - 'A' as int + 10)
    else None
  }

  /** `s.replace('+', ' ')` */
  function PlusToSpace(s: string): (r: string)
    ensures |r| == |s|
    ensures forall i :: 0 <= i < |s| ==> r[i] == if s[i] == '+' then ' ' else s[i]
  {
    seq(|s|, i requires 0 <= i < |s| => if s[i] == '+' then ' ' else s[i])
  }

  /**
    `unquote` on escapes of ASCII characters: each '%' followed by two hexadecimal digits
    of value below 128 becomes that character; every other character, a '%' that does not
    start such an escape included, stays as it is.
   */
  function PercentDecode(s: string): (r: string)
    ensures |r| <= |s| && (|s| > 0 ==> |r| > 0)
    decreases |s|
  {
    if |s| == 0 then []
    else if s[0] == '%' && |s| >= 3 && HexDigit(s[1]).Some? && HexDigit(s[2]).Some?
            && HexDigit(s[1]).value * 16 + HexDigit(s[2]).value < 128 then
      [(HexDigit(s[1]).value * 16 + HexDigit(s[2]).value) as char] + PercentDecode(s[3..])
    else [s[0]] + PercentDecode(s[1..])
  }

  /** What `parse_qsl` does to a name or a value: '+' to space, then `unquote`. */
  function Unquote(s: string): string {
    PercentDecode(PlusToSpace(s))
  }

  /** One field as `parse_qsl` keeps it by default: it needs a '=' and a non-empty raw value. */
  function Field(part: string): Option<(string, string)> {
    match After(part, '=')
    case None => None
    case Some(value) => if value == "" then None else Some((Unquote(Before(part, '=')), Unquote(value)))
  }

  /** The fields kept from the '&'-separated parts, in order. */
  function Fields(parts: seq<string>): (fields: seq<(string, string)>)
    ensures |fields| <= |parts|
    ensures Valued(fields)
  {
    if |parts| == 0 then []
    else
      var rest := Fields(parts[1..]);
      match Field(parts[0])
      case None => rest
      case Some(f) => [f] + rest
  }

  /** The first value given for `name`, as `parse_qs(...)[name][0]`. */
  function FirstValue(fields: seq<(string, string)>, name: string): (r: Option<string>)
    ensures r.None? <==> forall i :: 0 <= i < |fields| ==> fields[i].0 != name
    ensures r.Some? ==>
      exists i :: 0 <= i < |fields| && fields[i] == (name, r.value) && forall j :: 0 <= j < i ==> fields[j].0 != name
  {
    if |fields| == 0 then None
    else if fields[0].0 == name then Some(fields[0].1)
    else FirstValue(fields[1..], name)
  }

  /** The `page` value of a `next` link, if it has one. */
  function PageCursor(nextUrl: string): (r: Option<string>)
    ensures r.Some? ==> r.value != ""
  {
    FirstValue(Fields(Split(QueryString(nextUrl), '&')), "page")
  }

  /**
    The query for the page after a truthy `next` link: its `page` value replaces the cursor;
    a link without one leaves the query as it was.
   */
  function NextQuery(q: Query, nextUrl: string): (r: Query)
    ensures r.pageSize == q.pageSize && r.state == q.state
    ensures PageCursor(nextUrl).Some? ==> r.page == PageCursor(nextUrl)
    ensures PageCursor(nextUrl).None? ==> r == q
  {
    match PageCursor(nextUrl)
    case None => q
    case Some(page) => q.(page := Some(page))
  }

  /** The upper-case hexadecimal digit of `d`. */
  function HexUpper(d: int): char
    requires 0 <= d < 16
  {
    "0123456789ABCDEF"[d]
  }

  /** The characters a field must not carry literally: '+' and '%' would be decoded, the rest would cut the field. */
  predicate Reserved(c: char) {
    c == '%' || c == '+' || c == '&' || c == '=' || c == '#'
  }

  /** A space as '+', a reserved character as an upper-case %XX escape, anything else as itself. */
  function QuoteChar(c: char): (r: string)
    ensures |r| >= 1
    ensures '=' !in r && '&' !in r && '#' !in r
  {
    if c == ' ' then "+"
    else if Reserved(c) then ['%', HexUpper(c as int / 16), HexUpper(c as int % 16)]
    else [c]
  }

  /** `quote_plus` of the reserved characters and of spaces. */
  function Quote(s: string): (r: string)
    ensures |r| >= |s|
    ensures '=' !in r && '&' !in r && '#' !in r
    decreases |s|
  {
    if |s| == 0 then [] else QuoteChar(s[0]) + Quote(s[1..])
  }

  lemma HexUpperDigit(d: int)
    requires 0 <= d < 16
    ensures HexDigit(HexUpper(d)) == Some(d)
  {
  }

  /** Replacing '+' distributes over concatenation. */
  lemma PlusToSpaceAppend(a: string, b: string)
    ensures PlusToSpace(a + b) == PlusToSpace(a) + PlusToSpace(b)
  {
  }

  /** One quoted character reads back as that character, whatever follows it. */
  lemma UnquoteChar(c: char, rest: string)
    ensures PercentDecode(PlusToSpace(QuoteChar(c)) + rest) == [c] + PercentDecode(rest)
  {
    var q := QuoteChar(c);
    if c == ' ' {
      assert PlusToSpace(q) == [' '];
      assert ([' '] + rest)[1..] == rest;
    } else if Reserved(c) {
      var hi, lo := c as int / 16, c as int % 16;
      HexUpperDigit(hi);
      HexUpperDigit(lo);
      assert PlusToSpace(q) == q;
      assert (q + rest)[3..] == rest;
      assert (hi * 16 + lo) as char == c;
    } else {
      assert PlusToSpace(q) == q;
      assert (q + rest)[1..] == rest;
    }
  }

  /** `Unquote` inverts `Quote`. */
  lemma {:induction false} UnquoteQuote(s: string)
    ensures Unquote(Quote(s)) == s
    decreases |s|
  {
    if |s| > 0 {
      PlusToSpaceAppend(QuoteChar(s[0]), Quote(s[1..]));
      UnquoteChar(s[0], PlusToSpace(Quote(s[1..])));
      UnquoteQuote(s[1..]);
      assert [s[0]] + s[1..] == s;
    }
  }

  /** Text without '%' or '+' reads as itself. */
  lemma {:induction false} UnquotePlain(s: string)
    requires '%' !in s && '+' !in s
    ensures Unquote(s) == s
    decreases |s|
  {
    if |s| > 0 {
      assert PlusToSpace(s) == s;
      assert PlusToSpace(s[1..]) == s[1..];
      UnquotePlain(s[1..]);
      assert [s[0]] + s[1..] == s;
    }
  }

  /** A part with a '=' and a non-empty value is the field of its unquoted name and value. */
  lemma FieldOf(name: string, value: string)
    requires '=' !in name && value != ""
    ensures Field(name + "=" + value) == Some((Unquote(name), Unquote(value)))
  {
    assert name + "=" + value == name + ['='] + value;
    AfterAt(name, '=', value);
    SplitAt(name, '=', value);
  }

  /** An escape of a digit reads as the digit. */
  lemma EscapedDigit()
    ensures Unquote("%32") == "2"
  {
    assert PlusToSpace("%32") == "%32";
    assert HexDigit('3') == Some(3) && HexDigit('2') == Some(2);
    assert PercentDecode("%32") == ['2'] + PercentDecode([]);
  }

  /** An escaped digit in a field reads as the digit. */
  lemma EscapedCursor()
    ensures Field("page=%32") == Some(("page", "2"))
  {
    assert "page" + "=" + "%32" == "page=%32";
    FieldOf("page", "%32");
    UnquotePlain("page");
    EscapedDigit();
  }

  /** A '+' reads as a space, and a lower-case escape of '+' as '+'. */
  lemma PlusAndEscape()
    ensures Unquote("a+b%2bc") == "a b+c"
  {
    assert PlusToSpace("a+b%2bc") == "a b%2bc";
  }

  /** A field without '=' or with an empty value is dropped. */
  lemma BlankDropped()
    ensures Field("page=") == None && Field("page") == None
  {
    assert "page=" == "page" + ['='] + "";
    AfterAt("page", '=', "");
    AfterNone("page", '=');
  }

  /** `name=value` for each field, both quoted. */
  function RenderFields(fields: seq<(string, string)>): (parts: seq<string>)
    ensures |parts| == |fields|
    ensures forall k :: 0 <= k < |parts| ==> '&' !in parts[k] && '#' !in parts[k]
  {
    if |fields| == 0 then []
    else
      var part, rest := Quote(fields[0].0) + "=" + Quote(fields[0].1), RenderFields(fields[1..]);
      assert forall k :: 1 <= k < |rest| + 1 ==> ([part] + rest)[k] == rest[k - 1];
      [part] + rest
  }

  /** Every value is non-empty, as `parse_qs` drops blank ones. */
  predicate Valued(fields: seq<(string, string)>) {
    forall i :: 0 <= i < |fields| ==> fields[i].1 != ""
  }

  lemma {:induction false} JoinAvoids(parts: seq<string>, sep: string, c: char)
    requires forall k :: 0 <= k < |parts| ==> c !in parts[k]
    requires c !in sep
    ensures c !in Join(parts, sep)
    decreases |parts|
  {
    if |parts| > 1 {
      JoinAvoids(parts[1..], sep, c);
    }
  }

  lemma {:induction false} RenderedFields(fields: seq<(string, string)>)
    requires Valued(fields)
    ensures Fields(RenderFields(fields)) == fields
    decreases |fields|
  {
    if |fields| > 0 {
      var name, value := fields[0].0, fields[0].1;
      var parts := RenderFields(fields);
      FieldOf(Quote(name), Quote(value));
      UnquoteQuote(name);
      UnquoteQuote(value);
      assert Field(parts[0]) == Some((name, value));
      assert parts[1..] == RenderFields(fields[1..]);
      assert Valued(fields[1..]);
      RenderedFields(fields[1..]);
    }
  }

  /**
    Reading back a link the server writes, `base?name=value&...` with names and values
    quoted, yields the first `page` value among its fields: the reading inverts the writing
    for any names and any non-empty values.
   */
  lemma NextLinkCursor(base: string, fields: seq<(string, string)>)
    requires '?' !in base && '#' !in base
    requires Valued(fields)
    ensures PageCursor(base + "?" + Join(RenderFields(fields), "&")) == FirstValue(fields, "page")
  {
    var parts := RenderFields(fields);
    RenderedFields(fields);
    var qs := Join(parts, "&");
    JoinAvoids(parts, "&", '#');
    var url := base + "?" + qs;
    assert url == base + ['?'] + qs;
    assert '#' !in url;
    SplitNone(url, '#');
    AfterAt(base, '?', qs);
    assert QueryString(url) == qs;
    if |parts| == 0 {
      assert fields == [];
      assert Split(qs, '&') == [""];
      assert Fields([""]) == [];
    } else {
      SplitJoin(parts, '&', "");
      PadTailEmpty(parts);
    }
  }
}
