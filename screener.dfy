/**
 * The screener step, `fetch_and_filter_stocks`: turn the table rows of the
 * screener page into stock records, skipping short or unparsable rows,
 * keep page order, truncate to the run's limit, and fall back to a single
 * mock record when the request fails.
 *
 * The page download and its HTML parsing are not modelled: a response is
 * either a status code with the page's rows (each a sequence of cell
 * texts) or a request that raised. Python's `float()` is the parameter
 * `parse`, an arbitrary partial function from text to number.
 */
module Screener {
  import opened Wrappers

  /** One record of the screened table (a row of the pandas frame). */
  datatype Stock = Stock(
    ticker: string, company: string, sector: string, industry: string,
    marketCap: string, pe: string, price: real, change: real, volume: string)

  /** The outcome of the HTTP request: a response, or an exception (timeout, connection error). */
  datatype Response = Response(status: int, rows: seq<seq<string>>) | RequestFailed

  /** The record used when fetching fails. */
  const MOCK: Stock := Stock("AAPL", "Apple Inc.", "Technology", "Electronics", "3T", "30", 185.0, 1.2, "50M")

  /** Rows with fewer cells than this are skipped. */
  const MIN_CELLS: nat := 11

  /** Number of records kept in test mode and otherwise. */
  function Limit(testMode: bool): nat { if testMode then 2 else 10 }

  /** The characters Python's `str.isspace` accepts, which `str.strip()` removes. */
  const WHITESPACE: set<char> := {
    '\t', '\n', '\U{0B}', '\U{0C}', '\r', '\U{1C}', '\U{1D}', '\U{1E}', '\U{1F}', ' ',
    '\U{85}', '\U{A0}', '\U{1680}',
    '\U{2000}', '\U{2001}', '\U{2002}', '\U{2003}', '\U{2004}', '\U{2005}',
    '\U{2006}', '\U{2007}', '\U{2008}', '\U{2009}', '\U{200A}',
    '\U{2028}', '\U{2029}', '\U{202F}', '\U{205F}', '\U{3000}' }

  // ---------------------------------------------------------------------
  // str.strip
  // ---------------------------------------------------------------------

  /** Drops the leading characters that belong to `cs`. */
  function StripLeading(s: string, cs: set<char>): (r: string)
    ensures |r| <= |s| && r == s[|s| - |r|..]
    ensures forall k :: 0 <= k < |s| - |r| ==> s[k] in cs
    ensures r == [] || r[0] !in cs
  {
    if |s| > 0 && s[0] in cs then StripLeading(s[1..], cs) else s
  }

  /** Drops the trailing characters that belong to `cs`. */
  function StripTrailing(s: string, cs: set<char>): (r: string)
    ensures |r| <= |s| && r == s[..|r|]
    ensures forall k :: |r| <= k < |s| ==> s[k] in cs
    ensures r == [] || r[|r| - 1] !in cs
  {
    if |s| > 0 && s[|s| - 1] in cs then StripTrailing(s[..|s| - 1], cs) else s
  }

  /** Python's `s.strip(chars)` with the character set `cs`. */
  function Strip(s: string, cs: set<char>): string
  {
    StripTrailing(StripLeading(s, cs), cs)
  }

  lemma {:induction false} StripLeadingPadded(p: string, u: string, cs: set<char>)
    requires forall k :: 0 <= k < |p| ==> p[k] in cs
    requires u == [] || u[0] !in cs
    ensures StripLeading(p + u, cs) == u
    decreases |p|
  {
    if |p| > 0 {
      assert (p + u)[1..] == p[1..] + u;
      StripLeadingPadded(p[1..], u, cs);
    } else {
      assert p + u == u;
    }
  }

  lemma {:induction false} StripTrailingPadded(u: string, q: string, cs: set<char>)
    requires forall k :: 0 <= k < |q| ==> q[k] in cs
    requires u == [] || u[|u| - 1] !in cs
    ensures StripTrailing(u + q, cs) == u
    decreases |q|
  {
    if |q| > 0 {
      assert (u + q)[..|u + q| - 1] == u + q[..|q| - 1];
      StripTrailingPadded(u, q[..|q| - 1], cs);
    } else {
      assert u + q == u;
    }
  }

  /**
   * Stripping removes exactly the padding: text whose ends are not in `cs`,
   * surrounded by any padding drawn from `cs`, strips to that text.
   */
  lemma StripPadded(p: string, t: string, q: string, cs: set<char>)
    requires forall k :: 0 <= k < |p| ==> p[k] in cs
    requires forall k :: 0 <= k < |q| ==> q[k] in cs
    requires t == [] || (t[0] !in cs && t[|t| - 1] !in cs)
    ensures Strip(p + t + q, cs) == t
  {
    if t == [] {
      assert p + t + q == (p + q) + [];
      StripLeadingPadded(p + q, [], cs);
    } else {
      assert p + t + q == p + (t + q);
      StripLeadingPadded(p, t + q, cs);
      StripTrailingPadded(t, q, cs);
    }
  }

  /** The result of stripping has both ends outside `cs`, and stripping it again changes nothing. */
  lemma StripIdempotent(s: string, cs: set<char>)
    ensures Strip(s, cs) == [] || (Strip(s, cs)[0] !in cs && Strip(s, cs)[|Strip(s, cs)| - 1] !in cs)
    ensures Strip(Strip(s, cs), cs) == Strip(s, cs)
  {
  }

  // ---------------------------------------------------------------------
  // Row extraction
  // ---------------------------------------------------------------------

  /** The price cell as handed to `float()`: whitespace stripped. */
  function PriceText(cells: seq<string>): string
    requires |cells| >= MIN_CELLS
  {
    Strip(cells[8], WHITESPACE)
  }

  /** The change cell as handed to `float()`: only '%' characters stripped. */
  function ChangeText(cells: seq<string>): string
    requires |cells| >= MIN_CELLS
  {
    Strip(cells[9], {'%'})
  }

  /** The record built from a long enough row and its two parsed numbers. */
  function RowRecord(cells: seq<string>, price: real, change: real): Stock
    requires |cells| >= MIN_CELLS
  {
    Stock(
      Strip(cells[1], WHITESPACE), Strip(cells[2], WHITESPACE),
      Strip(cells[3], WHITESPACE), Strip(cells[4], WHITESPACE),
      Strip(cells[6], WHITESPACE), Strip(cells[7], WHITESPACE),
      price, change, Strip(cells[10], WHITESPACE))
  }

  /** The record for one table row, or `None` when the row is skipped. */
  function ParseRow(cells: seq<string>, parse: string -> Option<real>): (r: Option<Stock>)
    ensures r.Some? <==>
      |cells| >= MIN_CELLS && parse(PriceText(cells)).Some? && parse(ChangeText(cells)).Some?
  {
    if |cells| < MIN_CELLS then None
    else
      var price := parse(PriceText(cells));
      var change := parse(ChangeText(cells));
      if price.None? || change.None? then None
      else Some(RowRecord(cells, price.value, change.value))
  }

  /** A kept row takes its text fields from cells 1-4 and 6-10, trimmed, and its numbers from cells 8 and 9. */
  lemma ParseRowFields(cells: seq<string>, parse: string -> Option<real>)
    ensures ParseRow(cells, parse).Some? ==>
      var st := ParseRow(cells, parse).value;
      st.ticker == Strip(cells[1], WHITESPACE) && st.company == Strip(cells[2], WHITESPACE) &&
      st.sector == Strip(cells[3], WHITESPACE) && st.industry == Strip(cells[4], WHITESPACE) &&
      st.marketCap == Strip(cells[6], WHITESPACE) && st.pe == Strip(cells[7], WHITESPACE) &&
      Some(st.price) == parse(PriceText(cells)) && Some(st.change) == parse(ChangeText(cells)) &&
      st.volume == Strip(cells[10], WHITESPACE)
  {
  }

  /** Cell 0, cell 5 and any cell after the eleventh have no influence on the record. */
  lemma ParseRowIgnoresUnusedCells(a: seq<string>, b: seq<string>, parse: string -> Option<real>)
    requires |a| >= MIN_CELLS && |b| >= MIN_CELLS
    requires forall k :: 1 <= k <= 10 && k != 5 ==> a[k] == b[k]
    ensures ParseRow(a, parse) == ParseRow(b, parse)
  {
  }

  /** Each row's record, or `None` for a skipped row. */
  function ParsedRows(rows: seq<seq<string>>, parse: string -> Option<real>): (r: seq<Option<Stock>>)
    ensures |r| == |rows|
  {
    seq(|rows|, i requires 0 <= i < |rows| => ParseRow(rows[i], parse))
  }

  /** The records of all rows that are not skipped, in page order. */
  function KeptRows(rows: seq<seq<string>>, parse: string -> Option<real>): seq<Stock>
  {
    Present(ParsedRows(rows, parse))
  }

  /** The indices of the rows that are not skipped, in page order. */
  function KeptIndices(rows: seq<seq<string>>, parse: string -> Option<real>): seq<nat>
  {
    PresentIndices(ParsedRows(rows, parse))
  }

  /**
   * The kept records are, in order, exactly the records of the rows that
   * parse: the k-th record comes from the k-th such row, and every row
   * that parses contributes one.
   */
  lemma KeptRowsSpec(rows: seq<seq<string>>, parse: string -> Option<real>)
    ensures |KeptRows(rows, parse)| == |KeptIndices(rows, parse)|
    ensures forall k :: 0 <= k < |KeptIndices(rows, parse)| ==>
      KeptIndices(rows, parse)[k] < |rows| &&
      ParseRow(rows[KeptIndices(rows, parse)[k]], parse) == Some(KeptRows(rows, parse)[k])
    ensures forall k, l :: 0 <= k < l < |KeptIndices(rows, parse)| ==>
      KeptIndices(rows, parse)[k] < KeptIndices(rows, parse)[l]
    ensures forall i :: 0 <= i < |rows| && ParseRow(rows[i], parse).Some? ==> i in KeptIndices(rows, parse)
  {
    var opts := ParsedRows(rows, parse);
    PresentSpec(opts);
    assert forall i :: 0 <= i < |rows| ==> opts[i] == ParseRow(rows[i], parse);
  }

  /** `df.head(n)`. */
  function Head<T>(s: seq<T>, n: nat): seq<T>
  {
    if |s| <= n then s else s[..n]
  }

  /** What `fetch_and_filter_stocks` returns. */
  function Screen(resp: Response, testMode: bool, parse: string -> Option<real>): seq<Stock>
  {
    if resp.RequestFailed? || resp.status != 200 then [MOCK]
    else Head(KeptRows(resp.rows, parse), Limit(testMode))
  }

  /**
   * On a failed request or a non-200 status the result is the mock record
   * alone; otherwise it is the longest prefix of the kept records that
   * fits the limit (2 in test mode, 10 otherwise).
   */
  lemma ScreenSpec(resp: Response, testMode: bool, parse: string -> Option<real>)
    ensures var r := Screen(resp, testMode, parse);
      |r| <= Limit(testMode) &&
      (resp.RequestFailed? || resp.status != 200 ==> r == [MOCK]) &&
      (resp.Response? && resp.status == 200 ==>
        var kept := KeptRows(resp.rows, parse);
        |r| == (if |kept| < Limit(testMode) then |kept| else Limit(testMode)) && r == kept[..|r|])
  {
  }

  /** An empty table, which makes the run skip the report, arises only from a successful page with no usable row. */
  lemma ScreenEmpty(resp: Response, testMode: bool, parse: string -> Option<real>)
    ensures Screen(resp, testMode, parse) == [] <==>
      resp.Response? && resp.status == 200 && KeptRows(resp.rows, parse) == []
  {
  }

  lemma KeptRowsSnoc(rows: seq<seq<string>>, parse: string -> Option<real>, i: nat)
    requires i < |rows|
    ensures var r := ParseRow(rows[i], parse);
      KeptRows(rows[..i + 1], parse) == KeptRows(rows[..i], parse) + (if r.Some? then [r.value] else [])
  {
    assert ParsedRows(rows[..i + 1], parse) == ParsedRows(rows[..i], parse) + [ParseRow(rows[i], parse)];
    PresentSnoc(ParsedRows(rows[..i], parse), ParseRow(rows[i], parse));
  }

  /** The row loop of `fetch_and_filter_stocks`. */
  method ExtractRows(rows: seq<seq<string>>, parse: string -> Option<real>) returns (data: seq<Stock>)
    ensures data == KeptRows(rows, parse)
  {
    data := [];
    var i := 0;
    while i < |rows|
      invariant 0 <= i <= |rows|
      invariant data == KeptRows(rows[..i], parse)
    {
      var cells := rows[i];
      if |cells| >= MIN_CELLS {
        var record := ParseRow(cells, parse);
        if record.Some? {
          data := data + [record.value];
        }
      }
      KeptRowsSnoc(rows, parse, i);
      i := i + 1;
    }
    assert rows[..i] == rows;
  }

  /** `fetch_and_filter_stocks`, given the request's outcome. */
  method FetchAndFilterStocks(resp: Response, testMode: bool, parse: string -> Option<real>)
    returns (stocks: seq<Stock>)
    ensures stocks == Screen(resp, testMode, parse)
  {
    if resp.RequestFailed? || resp.status != 200 {
      return [MOCK];
    }
    var data := ExtractRows(resp.rows, parse);
    stocks := Head(data, Limit(testMode));
  }
}
