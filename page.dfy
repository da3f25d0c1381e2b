/**
 * The page state of the permalink tool and its event handlers. Each handler
 * is one atomic state change; an `alert` becomes the returned `Notice`.
 */
module Page {
  import opened Wrappers
  import opened Strings
  import opened Keywords
  import opened Permalinks
  import Csv

  /** The four business inputs of the form. */
  datatype Field = Latitude | Longitude | Location | Cid

  class App {
    var businessData: BusinessInfo
    var keywords: seq<string>
    var bulkKeywords: string
    var generatedLinks: seq<Link>
    var isLoading: bool

    /** Between events the keyword list is never empty and nothing is loading. */
    ghost predicate Valid()
      reads this
    {
      |keywords| >= 1 && !isLoading
    }

    /** The state on page load: empty fields, one empty keyword slot, no links. */
    constructor ()
      ensures Valid()
      ensures businessData == BusinessInfo("", "", "", "")
      ensures keywords == [""] && bulkKeywords == "" && generatedLinks == [] && !isLoading
    {
      businessData := BusinessInfo("", "", "", "");
      keywords := [""];
      bulkKeywords := "";
      generatedLinks := [];
      isLoading := false;
    }

    /** Typing into one business input replaces that field and no other. */
    method EditBusinessField(field: Field, value: string)
      requires Valid()
      modifies this
      ensures Valid()
      ensures businessData == match field
        case Latitude => old(businessData).(latitude := value)
        case Longitude => old(businessData).(longitude := value)
        case Location => old(businessData).(location := value)
        case Cid => old(businessData).(cid := value)
      ensures keywords == old(keywords) && bulkKeywords == old(bulkKeywords)
      ensures generatedLinks == old(generatedLinks)
    {
      match field
      case Latitude => businessData := businessData.(latitude := value);
      case Longitude => businessData := businessData.(longitude := value);
      case Location => businessData := businessData.(location := value);
      case Cid => businessData := businessData.(cid := value);
    }

    /** Typing into the bulk text area. */
    method EditBulkKeywords(text: string)
      requires Valid()
      modifies this
      ensures Valid()
      ensures bulkKeywords == text
      ensures businessData == old(businessData) && keywords == old(keywords)
      ensures generatedLinks == old(generatedLinks)
    {
      bulkKeywords := text;
    }

    /** `addKeyword`: appends one empty keyword slot. */
    method AddKeyword()
      requires Valid()
      modifies this
      ensures Valid()
      ensures keywords == old(keywords) + [""]
      ensures businessData == old(businessData) && bulkKeywords == old(bulkKeywords)
      ensures generatedLinks == old(generatedLinks)
    {
      keywords := keywords + [""];
    }

    /**
     * `removeKeyword`: removes the slot at `index`, unless it is the last slot
     * left; the list never becomes empty.
     */
    method RemoveKeyword(index: int)
      requires Valid()
      modifies this
      ensures Valid()
      ensures |old(keywords)| == 1 ==> keywords == old(keywords)
      ensures |old(keywords)| > 1 && 0 <= index < |old(keywords)| ==>
        keywords == old(keywords)[..index] + old(keywords)[index + 1..]
      ensures !(0 <= index < |old(keywords)|) ==> keywords == old(keywords)
      ensures businessData == old(businessData) && bulkKeywords == old(bulkKeywords)
      ensures generatedLinks == old(generatedLinks)
    {
      if |keywords| > 1 {
        keywords := RemoveAt(keywords, index);
      }
    }

    /**
     * `updateKeyword`: writes `value` into slot `index` of a copy of the list
     * and installs the copy; length and every other slot are unchanged.
     */
    method UpdateKeyword(index: nat, value: string)
      requires Valid()
      requires index < |keywords|
      modifies this
      ensures Valid()
      ensures |keywords| == |old(keywords)|
      ensures keywords[index] == value
      ensures forall i :: 0 <= i < |keywords| && i != index ==> keywords[i] == old(keywords)[i]
      ensures businessData == old(businessData) && bulkKeywords == old(bulkKeywords)
      ensures generatedLinks == old(generatedLinks)
    {
      var copy := new string[|keywords|](i requires 0 <= i < |keywords| reads this => keywords[i]);
      copy[index] := value;
      keywords := copy[..];
    }

    /**
     * `generatePermalinks(currentKeywords)`: on success the link list is
     * replaced wholesale, otherwise it is left as it was; the loading flag is
     * off again on every path.
     */
    method GeneratePermalinks(currentKeywords: seq<string>) returns (notice: Option<Notice>)
      requires Valid()
      modifies this
      ensures Valid()
      ensures match Generate(old(businessData), currentKeywords)
        case Ok(links) => generatedLinks == links && notice == None
        case Err(n) => generatedLinks == old(generatedLinks) && notice == Some(n)
      ensures businessData == old(businessData) && keywords == old(keywords)
      ensures bulkKeywords == old(bulkKeywords)
    {
      isLoading := true;
      var result := Generate(businessData, currentKeywords);
      if result.Ok? {
        generatedLinks := result.value;
        notice := None;
      } else {
        notice := Some(result.error);
      }
      isLoading := false;
    }

    /**
     * `processBulkKeywords`: blank text changes nothing; otherwise the parsed
     * lines become the keyword list, the text area is cleared and generation
     * runs on exactly that list. The "no valid keywords" notice never occurs.
     */
    method ProcessBulkKeywords() returns (notice: Option<Notice>)
      requires Valid()
      modifies this
      ensures Valid()
      ensures notice != Some(NoValidKeywordsFound)
      ensures Trim(old(bulkKeywords)) == [] ==>
        && notice == Some(EnterBulkKeywords)
        && keywords == old(keywords) && bulkKeywords == old(bulkKeywords)
        && generatedLinks == old(generatedLinks)
      ensures Trim(old(bulkKeywords)) != [] ==>
        && keywords == ParseBulk(old(bulkKeywords)) && bulkKeywords == ""
        && match Generate(old(businessData), keywords)
             case Ok(links) => generatedLinks == links && notice == None
             case Err(n) => generatedLinks == old(generatedLinks) && notice == Some(n)
      ensures businessData == old(businessData)
    {
      if Trim(bulkKeywords) == [] {
        return Some(EnterBulkKeywords);
      }
      var keywordList := ParseBulk(bulkKeywords);
      ParseBulkEmpty(bulkKeywords);
      if |keywordList| == 0 {
        assert false;
        return Some(NoValidKeywordsFound);
      }
      keywords := keywordList;
      bulkKeywords := "";
      notice := GeneratePermalinks(keywordList);
    }

    /** The text `downloadCSV` hands to the browser, or its notice when there are no links. */
    method DownloadCsv() returns (csv: Result<string, Notice>)
      ensures csv == Csv.Export(businessData, generatedLinks)
      ensures csv.Err? <==> generatedLinks == []
    {
      csv := Csv.Export(businessData, generatedLinks);
    }
  }
}
