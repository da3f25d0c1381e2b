/**
 * Permalink generation: the four business fields and the keyword list become
 * one record per non-blank keyword, each holding a Google Maps URL built from
 * a fixed template.
 */
module Permalinks {
  import opened Wrappers
  import opened Strings
  import opened Keywords

  /** The business fields, free text as typed. */
  datatype BusinessInfo = BusinessInfo(latitude: string, longitude: string, location: string, cid: string)

  /** One generated row: 1-based position, trimmed keyword, `+`-joined keyword, URL. */
  datatype Link = Link(id: nat, keyword: string, formattedKeyword: string, permalink: string)

  // The fixed pieces of the URL template, in order.
  const UrlStart := "https://www.google.com/maps?ll"
  const ZoomPart := "&z=15&t=m&hl=en&geo="
  const CidPart := "&mapclient=embed&cid="

  /**
   * The URL template with the fields substituted verbatim: no percent-encoding,
   * and no `=` after `ll`.
   */
  function Permalink(b: BusinessInfo, query: string): string {
    UrlStart + b.latitude + "," + b.longitude + ZoomPart + b.location + CidPart + b.cid + "&q=" + query
  }

  /** The page's presence check: only the empty string counts as missing. */
  predicate MissingField(b: BusinessInfo) {
    b.latitude == "" || b.longitude == "" || b.location == "" || b.cid == ""
  }

  /** `keyword.trim().replace(/\s+/g, '+')`: the words of the keyword joined by `+`. */
  function FormatKeyword(k: string): (f: string)
    ensures NoWs(f)
    ensures f == Join(Words(Trim(k)), "+")
  {
    CollapseWsJoinsWords(Trim(k));
    CollapseWs(Trim(k))
  }

  /** A keyword typed with single spaces between its words is formatted by swapping each space for `+`. */
  lemma FormatSpacedKeyword(ws: seq<string>)
    requires |ws| >= 1
    requires forall i | 0 <= i < |ws| :: ws[i] != [] && NoWs(ws[i])
    ensures FormatKeyword(Join(ws, " ")) == Join(ws, "+")
  {
    CollapseWsSpacedWords(ws);
    TrimIdempotent(Join(ws, " "));
  }

  /** `k.trim() !== ''`. */
  predicate NonBlank(k: string) {
    Trim(k) != []
  }

  /** `keywords.filter(k => k.trim() !== '')`. */
  function ValidKeywords(ks: seq<string>): seq<string> {
    Filter(NonBlank, ks)
  }

  /**
   * What the record generated for keyword `k` at 1-based position `id` holds:
   * that position, the trimmed keyword, its words joined by `+`, and the URL
   * for that query.
   */
  ghost predicate IsLinkFor(b: BusinessInfo, k: string, id: nat, link: Link) {
    && link.id == id
    && link.keyword == Trim(k)
    && link.formattedKeyword == Join(Words(link.keyword), "+")
    && NoWs(link.formattedKeyword)
    && link.permalink == Permalink(b, link.formattedKeyword)
  }

  /** The record for the keyword at 1-based position `id`. */
  function MakeLink(b: BusinessInfo, k: string, id: nat): (link: Link)
    ensures IsLinkFor(b, k, id, link)
  {
    var f := FormatKeyword(k);
    Link(id, Trim(k), f, Permalink(b, f))
  }

  /**
   * `generatePermalinks`: business fields are checked first, then the keywords;
   * on success one record per non-blank keyword, in input order, numbered from 1.
   */
  function Generate(b: BusinessInfo, ks: seq<string>): (r: Result<seq<Link>, Notice>)
    ensures r == Err(FillBusinessFields) <==> MissingField(b)
    ensures r == Err(AddAKeyword) <==> !MissingField(b) && forall k | k in ks :: AllWs(k)
    ensures r.Ok? || r == Err(FillBusinessFields) || r == Err(AddAKeyword)
    ensures r.Ok? ==> |r.value| == |ValidKeywords(ks)| > 0
    ensures r.Ok? ==> forall i :: 0 <= i < |r.value| ==> IsLinkFor(b, ValidKeywords(ks)[i], i + 1, r.value[i])
  {
    if MissingField(b) then Err(FillBusinessFields)
    else
      var valid := ValidKeywords(ks);
      ValidKeywordsEmpty(ks);
      if |valid| == 0 then Err(AddAKeyword)
      else Ok(seq(|valid|, i requires 0 <= i < |valid| => MakeLink(b, valid[i], i + 1)))
  }

  /** Every generated keyword is non-empty and trimmed. */
  lemma GeneratedKeywordsTrimmed(b: BusinessInfo, ks: seq<string>, i: nat)
    requires Generate(b, ks).Ok? && i < |Generate(b, ks).value|
    ensures var k := Generate(b, ks).value[i].keyword; k != [] && IsTrimmed(k)
  {
    var valid := ValidKeywords(ks);
    ValidKeywordsEmpty(ks);
    assert valid[i] in valid;
  }

  /** No keyword survives the filter exactly when every keyword is whitespace only. */
  lemma ValidKeywordsEmpty(ks: seq<string>)
    ensures ValidKeywords(ks) == [] <==> forall k | k in ks :: AllWs(k)
    ensures forall k | k in ValidKeywords(ks) :: NonBlank(k)
  {
    forall k | k in ks {
      TrimEmpty(k);
    }
    if ValidKeywords(ks) == [] {
      forall k | k in ks ensures AllWs(k) {
        if !AllWs(k) { FilterKeeps(NonBlank, ks, k); }
      }
    } else {
      var k := ValidKeywords(ks)[0];
      assert k in ValidKeywords(ks);
    }
  }

  /**
   * Fields made only of spaces pass the presence check: only `''` is rejected.
   */
  lemma WhitespaceFieldsAccepted(ks: seq<string>)
    requires exists k | k in ks :: !AllWs(k)
    ensures Generate(BusinessInfo(" ", " ", " ", " "), ks).Ok?
  {
  }

  /**
   * Generating from a bulk-parsed list: the records' keywords are exactly the
   * parsed list, in order, and each formatted keyword is the whitespace-collapsed keyword.
   */
  lemma GenerateFromParsedList(b: BusinessInfo, text: string)
    requires !MissingField(b) && Trim(text) != []
    ensures Generate(b, ParseBulk(text)).Ok?
    ensures var links := Generate(b, ParseBulk(text)).value;
      && |links| == |ParseBulk(text)|
      && forall i :: 0 <= i < |links| ==>
           links[i].keyword == ParseBulk(text)[i] && links[i].formattedKeyword == CollapseWs(ParseBulk(text)[i])
  {
    var ks := ParseBulk(text);
    ParseBulkEmpty(text);
    forall k | k in ks ensures NonBlank(k) && Trim(k) == k {
      TrimIdempotent(k);
    }
    FilterAll(NonBlank, ks);
    assert ks[0] in ks;
    assert !AllWs(ks[0]) by { TrimEmpty(ks[0]); }
  }
}
