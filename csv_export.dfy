/** The CSV download of the current results (App.tsx, `handleDownloadCsv`): a fixed header
    line, then one line per company whose five fields are each wrapped in double quotes with
    inner quotes doubled, as section 2 rule 7 of RFC 4180 asks. Lines are joined with a
    line feed, not the CRLF of section 2 rule 1. Also a reader for such text, used to state
    that the escaping loses nothing. */
module CsvExport {
  import opened Wrappers
  import opened Types
  import Seqs
  import Text

  /** The column titles, in order. */
  const Headers: seq<string> := ["Company Name", "Website", "Mobile Phone", "Email", "Location"]

  /** `headers.join(',')`, written out: the column titles separated by commas. */
  const HeaderLine: string := "Company Name,Website,Mobile Phone,Email,Location"

  // ---------------------------------------------------------------------------
  // Writing
  // ---------------------------------------------------------------------------

  /** `s.replace(/"/g, '""')`: every double quote doubled. */
  function EscapeQuotes(s: string): (r: string)
    ensures |r| >= |s|
  {
    if s == [] then []
    else (if s[0] == '"' then "\"\"" else [s[0]]) + EscapeQuotes(s[1..])
  }

  /** One field as written: the escaped text between double quotes. */
  function QuoteField(s: string): string
  {
    "\"" + EscapeQuotes(s) + "\""
  }

  /** A company's fields in column order. */
  function CompanyFields(c: Company): (r: seq<string>)
    ensures |r| == |Headers|
  {
    [c.companyName, c.website, c.phone, c.email, c.location]
  }

  /** Every field quoted. */
  function QuoteAll(fields: seq<string>): (r: seq<string>)
    ensures |r| == |fields|
    ensures forall k :: 0 <= k < |fields| ==> r[k] == QuoteField(fields[k])
  {
    seq(|fields|, k requires 0 <= k < |fields| => QuoteField(fields[k]))
  }

  /** The line written for one company. */
  function CsvRow(c: Company): string
  {
    Seqs.JoinWith(QuoteAll(CompanyFields(c)), ",")
  }

  /** The lines of the file: the header, then one per company in order. */
  function CsvLines(results: seq<Company>): (r: seq<string>)
    ensures |r| == |results| + 1 && r[0] == HeaderLine
    ensures forall k :: 0 <= k < |results| ==> r[k + 1] == CsvRow(results[k])
  {
    [HeaderLine] + seq(|results|, k requires 0 <= k < |results| => CsvRow(results[k]))
  }

  /** `csvRows.join('\n')`. */
  function CsvText(results: seq<Company>): string
  {
    Seqs.JoinWith(CsvLines(results), "\n")
  }

  /** The file name: the niche with each whitespace run replaced by `_`, then `_`, the
      country and `_leads.csv`. */
  function ExportFilename(criteria: SearchCriteria): string
  {
    Text.CollapseWhitespace(criteria.niche) + "_" + criteria.country + "_leads.csv"
  }

  /** The file name is the niche with each whitespace run replaced by one `_`, then `_`,
      the country and `_leads.csv`; no whitespace comes from the niche. */
  lemma ExportFilenameShape(criteria: SearchCriteria)
    ensures var name := ExportFilename(criteria);
      var n := |Text.CollapseWhitespace(criteria.niche)|;
      |name| == n + 1 + |criteria.country| + 10
      && name[..n] == Text.CollapseWhitespace(criteria.niche)
      && Text.NoWhitespace(name[..n])
      && name[n] == '_'
      && name[n + 1..n + 1 + |criteria.country|] == criteria.country
      && name[n + 1 + |criteria.country|..] == "_leads.csv"
  {
    Text.CollapseLeavesNoWhitespace(criteria.niche);
    var name := ExportFilename(criteria);
    var collapsed := Text.CollapseWhitespace(criteria.niche);
    var n := |collapsed|;
    assert name == collapsed + "_" + criteria.country + "_leads.csv";
    assert name[..n] == collapsed;
    assert name[n + 1..n + 1 + |criteria.country|] == criteria.country;
  }

  // ---------------------------------------------------------------------------
  // Reading back
  // ---------------------------------------------------------------------------

  /** Undo the doubling: each `""` becomes `"`. */
  function UnescapeQuotes(s: string): string
  {
    if s == [] then []
    else if |s| >= 2 && s[0] == '"' && s[1] == '"' then "\"" + UnescapeQuotes(s[2..])
    else [s[0]] + UnescapeQuotes(s[1..])
  }

  /** Remove the outer quotes of a field and undo the doubling; None if it is not quoted. */
  function Unquote(q: string): Option<string>
  {
    if |q| >= 2 && q[0] == '"' && q[|q| - 1] == '"' then Some(UnescapeQuotes(q[1..|q| - 1]))
    else None
  }

  /** Each field of a written line unquotes to the original field. */
  lemma QuoteAllUnquotes(fields: seq<string>)
    ensures forall k :: 0 <= k < |fields| ==> Unquote(QuoteAll(fields)[k]) == Some(fields[k])
  {
    forall k | 0 <= k < |fields| ensures Unquote(QuoteAll(fields)[k]) == Some(fields[k]) {
      UnquoteQuoteField(fields[k]);
    }
  }

  /** Un-doubling recovers the text that was escaped. */
  lemma {:induction false} UnescapeEscape(s: string)
    ensures UnescapeQuotes(EscapeQuotes(s)) == s
  {
    if s != [] {
      UnescapeEscape(s[1..]);
      if s[0] == '"' {
        assert EscapeQuotes(s) == "\"\"" + EscapeQuotes(s[1..]);
        assert EscapeQuotes(s)[2..] == EscapeQuotes(s[1..]);
      } else {
        assert EscapeQuotes(s) == [s[0]] + EscapeQuotes(s[1..]);
        assert EscapeQuotes(s)[1..] == EscapeQuotes(s[1..]);
      }
      assert s == [s[0]] + s[1..];
    }
  }

  /** Removing the outer quotes and un-doubling recovers the field. */
  lemma UnquoteQuoteField(s: string)
    ensures Unquote(QuoteField(s)) == Some(s)
  {
    var q := QuoteField(s);
    assert q[1..|q| - 1] == EscapeQuotes(s);
    UnescapeEscape(s);
  }

  /** Read a quoted field's content after its opening quote: a doubled quote stands for one
      quote, a single quote ends the field. Returns the content and what follows the
      closing quote. */
  function ReadQuoted(s: string): (r: Option<(string, string)>)
    ensures r.Some? ==> |r.value.1| < |s|
  {
    if s == [] then None
    else if s[0] == '"' then
      if |s| >= 2 && s[1] == '"' then
        match ReadQuoted(s[2..])
        case None => None
        case Some((f, rest)) => Some(("\"" + f, rest))
      else Some(([], s[1..]))
    else
      match ReadQuoted(s[1..])
      case None => None
      case Some((f, rest)) => Some(([s[0]] + f, rest))
  }

  /** Read one quoted field at the start of `s`. */
  function ReadField(s: string): (r: Option<(string, string)>)
    ensures r.Some? ==> |r.value.1| < |s|
  {
    if s != [] && s[0] == '"' then ReadQuoted(s[1..]) else None
  }

  /** Read one record: quoted fields separated by commas. Returns the fields and what
      follows the last one. */
  function ReadRecord(s: string): (r: Option<(seq<string>, string)>)
    decreases |s|
    ensures r.Some? ==> |r.value.1| < |s|
  {
    match ReadField(s)
    case None => None
    case Some((f, rest)) =>
      if rest != [] && rest[0] == ',' then
        match ReadRecord(rest[1..])
        case None => None
        case Some((fs, rest')) => Some(([f] + fs, rest'))
      else Some(([f], rest))
  }

  /** Read records separated by line feeds up to the end of the text. */
  function ReadRecords(s: string): Option<seq<seq<string>>>
    decreases |s|
  {
    match ReadRecord(s)
    case None => None
    case Some((fs, rest)) =>
      if rest == [] then Some([fs])
      else if rest[0] == '\n' then
        match ReadRecords(rest[1..])
        case None => None
        case Some(rs) => Some([fs] + rs)
      else None
  }

  /** Reading an escaped field's content stops at its closing quote, whatever follows
      (unless another quote follows directly, which would read as a doubled quote). */
  lemma {:induction false} ReadQuotedEscaped(f: string, rest: string)
    requires rest == [] || rest[0] != '"'
    ensures ReadQuoted(EscapeQuotes(f) + "\"" + rest) == Some((f, rest))
  {
    var s := EscapeQuotes(f) + "\"" + rest;
    if f == [] {
      assert s == "\"" + rest;
      assert s[1..] == rest;
    } else {
      ReadQuotedEscaped(f[1..], rest);
      var tail := EscapeQuotes(f[1..]) + "\"" + rest;
      if f[0] == '"' {
        assert s == "\"\"" + tail;
        assert s[2..] == tail;
      } else {
        assert s == [f[0]] + tail;
        assert s[1..] == tail;
      }
      assert f == [f[0]] + f[1..];
    }
  }

  /** A quoted field reads back as the original text. */
  lemma ReadFieldQuoted(f: string, rest: string)
    requires rest == [] || rest[0] != '"'
    ensures ReadField(QuoteField(f) + rest) == Some((f, rest))
  {
    var s := QuoteField(f) + rest;
    assert s[1..] == EscapeQuotes(f) + "\"" + rest;
    ReadQuotedEscaped(f, rest);
  }

  /** A written record reads back as its fields, when it is followed by the end of the
      text or a line feed. */
  lemma {:induction false} ReadRecordWritten(fields: seq<string>, rest: string)
    requires fields != []
    requires rest == [] || rest[0] == '\n'
    ensures ReadRecord(Seqs.JoinWith(QuoteAll(fields), ",") + rest) == Some((fields, rest))
    decreases |fields|
  {
    var qs := QuoteAll(fields);
    if |fields| == 1 {
      assert Seqs.JoinWith(qs, ",") == QuoteField(fields[0]);
      ReadFieldQuoted(fields[0], rest);
      assert fields == [fields[0]];
    } else {
      var tail := Seqs.JoinWith(QuoteAll(fields[1..]), ",") + rest;
      assert qs[1..] == QuoteAll(fields[1..]);
      assert Seqs.JoinWith(qs, ",") + rest == QuoteField(fields[0]) + ("," + tail);
      ReadFieldQuoted(fields[0], "," + tail);
      assert ("," + tail)[1..] == tail;
      ReadRecordWritten(fields[1..], rest);
      assert fields == [fields[0]] + fields[1..];
    }
  }

  /** Written records joined by line feeds read back as the list of their fields. */
  lemma {:induction false} ReadRecordsWritten(rows: seq<seq<string>>)
    requires rows != []
    requires forall k :: 0 <= k < |rows| ==> rows[k] != []
    ensures ReadRecords(Seqs.JoinWith(seq(|rows|, k requires 0 <= k < |rows| => Seqs.JoinWith(QuoteAll(rows[k]), ",")), "\n"))
         == Some(rows)
    decreases |rows|
  {
    var lines := seq(|rows|, k requires 0 <= k < |rows| => Seqs.JoinWith(QuoteAll(rows[k]), ","));
    if |rows| == 1 {
      assert Seqs.JoinWith(lines, "\n") == lines[0] + [];
      ReadRecordWritten(rows[0], []);
      assert rows == [rows[0]];
    } else {
      var tailLines := seq(|rows| - 1, k requires 0 <= k < |rows| - 1 => Seqs.JoinWith(QuoteAll(rows[1..][k]), ","));
      assert lines[1..] == tailLines;
      var tail := Seqs.JoinWith(tailLines, "\n");
      assert Seqs.JoinWith(lines, "\n") == lines[0] + ("\n" + tail);
      ReadRecordWritten(rows[0], "\n" + tail);
      assert ("\n" + tail)[1..] == tail;
      ReadRecordsWritten(rows[1..]);
      assert rows == [rows[0]] + rows[1..];
    }
  }

  /** The exported text is the header line, and (when there are results) a line feed and
      lines that read back as exactly the companies' fields, in order. */
  lemma CsvTextReadsBack(results: seq<Company>) returns (body: string)
    requires results != []
    ensures CsvText(results) == HeaderLine + "\n" + body
    ensures ReadRecords(body) == Some(seq(|results|, k requires 0 <= k < |results| => CompanyFields(results[k])))
  {
    var rows := seq(|results|, k requires 0 <= k < |results| => CompanyFields(results[k]));
    var lines := seq(|rows|, k requires 0 <= k < |rows| => Seqs.JoinWith(QuoteAll(rows[k]), ","));
    var all := CsvLines(results);
    assert all[1..] == lines;
    assert all == [HeaderLine] + lines;
    body := Seqs.JoinWith(lines, "\n");
    Seqs.JoinWithCons(HeaderLine, lines, "\n");
    ReadRecordsWritten(rows);
  }
}
