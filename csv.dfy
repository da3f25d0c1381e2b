/**
 * The text of the CSV download: a fixed 14-column header and one 14-cell row
 * per generated link, every cell wrapped in `"`, cells joined by `,` and rows
 * by a line feed. A decoder for that layout is the serialiser's inverse.
 */
module Csv {
  import opened Wrappers
  import opened Strings
  import opened Permalinks

  const Header: seq<string> := [
    "S.no", "Google Map", "Latitude", "comma", "Longitude", "Dont Change this",
    "Country+State+City+ZipCode", "Dont Change this", "CID", "And", "Query",
    "Keyword", "Permalink", "Original Permalink"]

  function DigitChar(d: nat): char
    requires d < 10
  {
    ('0' as int + d) as char
  }

  predicate IsDigits(s: string) {
    forall i :: 0 <= i < |s| ==> '0' <= s[i] <= '9'
  }

  /** How JavaScript writes a non-negative integer into a template: its decimal digits, with no leading zero. */
  function Decimal(n: nat): (s: string)
    ensures s != [] && IsDigits(s)
    ensures n >= 1 ==> s[0] != '0'
  {
    if n < 10 then [DigitChar(n)] else Decimal(n / 10) + [DigitChar(n % 10)]
  }

  /** The number a string of decimal digits denotes. */
  function DecimalValue(s: string): nat
    requires IsDigits(s)
  {
    if s == [] then 0
    else DecimalValue(s[..|s| - 1]) * 10 + (s[|s| - 1] as int - '0' as int)
  }

  /** `Decimal` loses nothing: reading the digits back gives the number. */
  lemma {:induction false} DecimalRoundTrip(n: nat)
    ensures DecimalValue(Decimal(n)) == n
  {
    var s := Decimal(n);
    if n >= 10 {
      DecimalRoundTrip(n / 10);
      assert s[..|s| - 1] == Decimal(n / 10);
    }
  }

  /**
   * The 14 cells written for one link: its id, the URL template cut into its
   * fixed pieces and the business fields as they are now, the formatted
   * keyword, and the stored permalink twice.
   */
  function DataRow(b: BusinessInfo, link: Link): seq<string> {
    [Decimal(link.id), UrlStart, b.latitude, ",", b.longitude, ZoomPart,
     b.location, CidPart, b.cid, "&", "q=", link.formattedKeyword,
     link.permalink, link.permalink]
  }

  /**
   * Cells 2 to 12 of a data row rebuild the URL for the link's formatted
   * keyword from the business fields the row was written with.
   */
  lemma DataRowRebuildsPermalink(b: BusinessInfo, link: Link)
    ensures var r := DataRow(b, link);
      && |r| == |Header| == 14
      && r[1] + r[2] + r[3] + r[4] + r[5] + r[6] + r[7] + r[8] + r[9] + r[10] + r[11]
         == Permalink(b, link.formattedKeyword)
      && r[12] == r[13] == link.permalink
  {
  }

  /**
   * For a link generated from the same business fields, cells 2 to 12 of its row
   * concatenate to the permalink held in cells 13 and 14.
   */
  lemma GeneratedRowIsConsistent(b: BusinessInfo, ks: seq<string>, i: nat)
    requires Generate(b, ks).Ok? && i < |Generate(b, ks).value|
    ensures var r := DataRow(b, Generate(b, ks).value[i]);
      r[1] + r[2] + r[3] + r[4] + r[5] + r[6] + r[7] + r[8] + r[9] + r[10] + r[11] == r[12] == r[13]
  {
    DataRowRebuildsPermalink(b, Generate(b, ks).value[i]);
  }

  /** `"${cell}"`: the cell between double quotes, with no escaping. */
  function Quote(cell: string): string {
    "\"" + cell + "\""
  }

  /** `row.map(cell => `"${cell}"`).join(',')`. */
  function EncodeRow(cells: seq<string>): string {
    Join(seq(|cells|, i requires 0 <= i < |cells| => Quote(cells[i])), ",")
  }

  /** The header followed by one data row per link. */
  function Table(b: BusinessInfo, links: seq<Link>): seq<seq<string>> {
    [Header] + seq(|links|, i requires 0 <= i < |links| => DataRow(b, links[i]))
  }

  function EncodeRows(rows: seq<seq<string>>): seq<string> {
    seq(|rows|, i requires 0 <= i < |rows| => EncodeRow(rows[i]))
  }

  /** The content of `downloadCSV`: nothing when there are no links. */
  function Export(b: BusinessInfo, links: seq<Link>): (r: Result<string, Notice>)
    ensures r.Err? <==> links == []
    ensures r.Err? ==> r.error == NoLinksToDownload
  {
    if |links| == 0 then Err(NoLinksToDownload)
    else Ok(Join(EncodeRows(Table(b, links)), "\n"))
  }

  /** Position of the first `"` in `s`, or `|s|` when there is none. */
  function QuoteEnd(s: string): (n: nat)
    ensures n <= |s|
  {
    if s == [] || s[0] == '"' then 0 else 1 + QuoteEnd(s[1..])
  }

  /**
   * Reads one line of quoted cells: `"`, a cell without `"`, `"`, and then the
   * end of the line or `,` and the next cell.
   */
  function DecodeRow(line: string): Option<seq<string>>
    decreases |line|, 1
  {
    if line == [] || line[0] != '"' then None
    else
      var body := line[1..];
      var n := QuoteEnd(body);
      if n == |body| then None
      else DecodeAfterCell(body[..n], body[n + 1..])
  }

  /** What may follow a closing quote: the end of the line, or `,` and more cells. */
  function DecodeAfterCell(cell: string, rest: string): Option<seq<string>>
    decreases |rest| + 1, 0
  {
    if rest == [] then Some([cell])
    else if rest[0] != ',' then None
    else match DecodeRow(rest[1..])
      case None => None
      case Some(cells) => Some([cell] + cells)
  }

  function DecodeLines(lines: seq<string>): Option<seq<seq<string>>> {
    if lines == [] then Some([])
    else match (DecodeRow(lines[0]), DecodeLines(lines[1..]))
      case (Some(row), Some(rows)) => Some([row] + rows)
      case _ => None
  }

  /** Reads a whole CSV text back into rows of cells. */
  function Decode(text: string): Option<seq<seq<string>>> {
    DecodeLines(Split(text, '\n'))
  }

  /** A cell that the serialiser writes without loss: no `"` and no line feed. */
  predicate Safe(cell: string) {
    '"' !in cell && '\n' !in cell
  }

  lemma {:induction false} QuoteEndAfter(x: string, rest: string)
    requires '"' !in x
    ensures QuoteEnd(x + "\"" + rest) == |x|
  {
    if x != [] {
      assert (x + "\"" + rest)[1..] == x[1..] + "\"" + rest;
      QuoteEndAfter(x[1..], rest);
    }
  }

  /** Reading the first quoted cell of a line. */
  lemma DecodeFirstCell(c: string, tail: string)
    requires '"' !in c
    ensures DecodeRow(Quote(c) + tail) == DecodeAfterCell(c, tail)
  {
    var line := Quote(c) + tail;
    var body := line[1..];
    assert body == c + "\"" + tail;
    QuoteEndAfter(c, tail);
    assert body[..|c|] == c;
    assert body[|c| + 1..] == tail;
  }

  lemma EncodeRowCons(cells: seq<string>)
    requires |cells| >= 2
    ensures EncodeRow(cells) == Quote(cells[0]) + "," + EncodeRow(cells[1..])
  {
    var q := seq(|cells|, i requires 0 <= i < |cells| => Quote(cells[i]));
    assert q[1..] == seq(|cells| - 1, i requires 0 <= i < |cells| - 1 => Quote(cells[1..][i]));
  }

  /** Round trip for one row whose cells hold no `"`. */
  lemma {:induction false} DecodeEncodeRow(cells: seq<string>)
    requires |cells| >= 1
    requires forall c | c in cells :: '"' !in c
    ensures DecodeRow(EncodeRow(cells)) == Some(cells)
  {
    if |cells| == 1 {
      assert EncodeRow(cells) == Quote(cells[0]);
      assert Quote(cells[0]) + [] == Quote(cells[0]);
      DecodeFirstCell(cells[0], []);
      assert cells == [cells[0]];
    } else {
      EncodeRowCons(cells);
      DecodeEncodeRow(cells[1..]);
      assert Quote(cells[0]) + "," + EncodeRow(cells[1..]) == Quote(cells[0]) + ("," + EncodeRow(cells[1..]));
      DecodeFirstCell(cells[0], "," + EncodeRow(cells[1..]));
      assert ("," + EncodeRow(cells[1..]))[1..] == EncodeRow(cells[1..]);
      assert [cells[0]] + cells[1..] == cells;
    }
  }

  /** A row of cells without line feeds is written on one line. */
  lemma {:induction false} EncodeRowOneLine(cells: seq<string>)
    requires forall c | c in cells :: '\n' !in c
    ensures '\n' !in EncodeRow(cells)
  {
    if |cells| >= 2 {
      EncodeRowCons(cells);
      EncodeRowOneLine(cells[1..]);
    }
  }

  lemma {:induction false} DecodeEncodeLines(rows: seq<seq<string>>)
    requires forall row | row in rows :: |row| >= 1 && forall c | c in row :: '"' !in c
    ensures DecodeLines(EncodeRows(rows)) == Some(rows)
  {
    if rows != [] {
      DecodeEncodeRow(rows[0]);
      DecodeEncodeLines(rows[1..]);
      assert EncodeRows(rows)[1..] == EncodeRows(rows[1..]);
      assert [rows[0]] + rows[1..] == rows;
    }
  }

  lemma HeaderSafe()
    ensures |Header| == 14 && forall c | c in Header :: Safe(c)
  {
    HeaderSafe0_4();
    HeaderSafe4_7();
    HeaderSafe7_11();
    HeaderSafe11_14();
    assert Header == Header[..4] + Header[4..7] + Header[7..11] + Header[11..];
  }

  lemma HeaderSafe0_4()
    ensures forall c | c in Header[0..4] :: Safe(c)
  {
    assert Header[0..4] == ["S.no", "Google Map", "Latitude", "comma"];
  }

  lemma HeaderSafe4_7()
    ensures forall c | c in Header[4..7] :: Safe(c)
  {
    assert Header[4..7] == ["Longitude", "Dont Change this", "Country+State+City+ZipCode"];
  }

  lemma HeaderSafe7_11()
    ensures forall c | c in Header[7..11] :: Safe(c)
  {
    assert Header[7..11] == ["Dont Change this", "CID", "And", "Query"];
  }

  lemma HeaderSafe11_14()
    ensures forall c | c in Header[11..] :: Safe(c)
  {
    assert Header[11..] == ["Keyword", "Permalink", "Original Permalink"];
  }

  lemma UrlStartSafe() ensures Safe(UrlStart) {}
  lemma ZoomPartSafe() ensures Safe(ZoomPart) {}
  lemma CidPartSafe() ensures Safe(CidPart) {}

  lemma DecimalSafe(n: nat)
    ensures Safe(Decimal(n))
  {
  }

  lemma DataRowSafe(b: BusinessInfo, link: Link)
    requires Safe(b.latitude) && Safe(b.longitude) && Safe(b.location) && Safe(b.cid)
    requires Safe(link.formattedKeyword) && Safe(link.permalink)
    ensures forall c | c in DataRow(b, link) :: Safe(c)
  {
    DecimalSafe(link.id);
    UrlStartSafe();
    ZoomPartSafe();
    CidPartSafe();
    assert Safe(",") && Safe("&") && Safe("q=");
  }

  /** Every data row has 14 cells, all safe, when the fields and links are safe. */
  lemma DataRowsSafe(b: BusinessInfo, links: seq<Link>)
    requires Safe(b.latitude) && Safe(b.longitude) && Safe(b.location) && Safe(b.cid)
    requires forall l | l in links :: Safe(l.formattedKeyword) && Safe(l.permalink)
    ensures forall i | 0 <= i < |links| ::
      |DataRow(b, links[i])| == 14 && forall c | c in DataRow(b, links[i]) :: Safe(c)
  {
    forall i | 0 <= i < |links|
      ensures forall c | c in DataRow(b, links[i]) :: Safe(c)
    {
      assert links[i] in links;
      DataRowSafe(b, links[i]);
    }
  }

  /** Every cell of every row of the table is safe when the fields and links are. */
  lemma TableSafe(b: BusinessInfo, links: seq<Link>)
    requires Safe(b.latitude) && Safe(b.longitude) && Safe(b.location) && Safe(b.cid)
    requires forall l | l in links :: Safe(l.formattedKeyword) && Safe(l.permalink)
    ensures forall row | row in Table(b, links) :: |row| == 14 && forall c | c in row :: Safe(c)
  {
    HeaderSafe();
    DataRowsSafe(b, links);
    var rows := Table(b, links);
    forall row | row in rows
      ensures |row| == 14 && forall c | c in row :: Safe(c)
    {
      var k :| 0 <= k < |rows| && rows[k] == row;
      if k > 0 {
        assert row == DataRow(b, links[k - 1]);
      }
    }
  }

  /**
   * Round trip for the whole download: with fields and links free of `"` and
   * line feeds, the text reads back as the header and one 14-cell row per link,
   * on 1 + N lines.
   */
  lemma ExportRoundTrip(b: BusinessInfo, links: seq<Link>)
    requires links != []
    requires Safe(b.latitude) && Safe(b.longitude) && Safe(b.location) && Safe(b.cid)
    requires forall l | l in links :: Safe(l.formattedKeyword) && Safe(l.permalink)
    ensures Export(b, links).Ok?
    ensures |Split(Export(b, links).value, '\n')| == 1 + |links|
    ensures Decode(Export(b, links).value) == Some(Table(b, links))
  {
    var rows := Table(b, links);
    TableSafe(b, links);
    var lines := EncodeRows(rows);
    forall line | line in lines ensures '\n' !in line {
      var i :| 0 <= i < |lines| && lines[i] == line;
      assert rows[i] in rows;
      EncodeRowOneLine(rows[i]);
    }
    SplitJoin(lines, '\n');
    DecodeEncodeLines(rows);
  }

  /**
   * Quotes inside a cell are not doubled (RFC 4180, section 2, rule 7, would
   * double them), so one cell holding `x","y` is written exactly like the two
   * cells `x` and `y`, and the text no longer says which was meant.
   */
  lemma EmbeddedQuoteIsAmbiguous()
    ensures EncodeRow(["x\",\"y"]) == EncodeRow(["x", "y"])
    ensures DecodeRow(EncodeRow(["x\",\"y"])) == Some(["x", "y"])
  {
    EncodeRowCons(["x", "y"]);
    DecodeEncodeRow(["x", "y"]);
  }
}
