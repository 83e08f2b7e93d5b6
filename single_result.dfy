/** One search result as the engine receives it (adb/SingleResult.java). */
module Results {
  import opened Wrappers
  import Text

  /** The value of a result at the moment the engine reads it. */
  datatype Doc = Doc(url: string, title: string, summary: string, isRelevant: bool)

  /** The fixed text of `toString` around the three fields. */
  const UrlLabel: string := "[\n URL: "
  const TitleLabel: string := "\n Title: "
  const SummaryLabel: string := "\n Summary: "
  const Closing: string := "\n]"

  class SingleResult {
    /** url, title and summary have no setters: they keep their constructor values. */
    const url: string
    const title: string
    const summary: string
    var isRelevant: bool

    constructor (url: string, title: string, summary: string)
      ensures GetUrl() == url && GetTitle() == title && GetSummary() == summary
      ensures !GetIsRelevant()
    {
      this.url := url;
      this.title := title;
      this.summary := summary;
      isRelevant := false;
    }

    function GetUrl(): string { url }

    function GetTitle(): string { title }

    function GetSummary(): string { summary }

    function GetIsRelevant(): bool
      reads this
    {
      isRelevant
    }

    /** The judgment is the only thing a result lets its users change. */
    method SetIsRelevant(isRelevant: bool)
      modifies this`isRelevant
      ensures GetIsRelevant() == isRelevant
      ensures Value() == old(Value()).(isRelevant := isRelevant)
    {
      this.isRelevant := isRelevant;
    }

    function ToString(): (s: string)
      ensures |s| == |url| + |title| + |summary| + 30
      ensures s[..|UrlLabel| + |url|] == UrlLabel + url
      ensures s[|s| - 2..] == Closing
    {
      UrlLabel + url + TitleLabel + title + SummaryLabel + summary + Closing
    }

    ghost function Value(): Doc
      reads this
    {
      Doc(url, title, summary, isRelevant)
    }
  }

  /** The values of the results of `rs`, in order. */
  ghost function Values(rs: seq<SingleResult>): (ds: seq<Doc>)
    reads set r | r in rs
    ensures |ds| == |rs|
    ensures forall i :: 0 <= i < |rs| ==> ds[i] == rs[i].Value()
  {
    if rs == [] then [] else Values(rs[..|rs| - 1]) + [rs[|rs| - 1].Value()]
  }

  /** Reads the three fields back out of text shaped like `toString`'s. */
  function ParseRendering(s: string): (r: Option<(string, string, string)>)
  {
    if |s| < |UrlLabel| || s[..|UrlLabel|] != UrlLabel then None
    else
      var s1 := s[|UrlLabel|..];
      var url := Text.TakeUntil(s1, '\n');
      match ParseTail(Text.DropUntil(s1, '\n'))
      case None => None
      case Some((title, summary)) => Some((url, title, summary))
  }

  /** Reads the title and the summary back out of what follows the URL's line break. */
  function ParseTail(s2: string): (r: Option<(string, string)>)
  {
    if |s2| < |TitleLabel| - 1 || s2[..|TitleLabel| - 1] != TitleLabel[1..] then None
    else
      var s3 := s2[|TitleLabel| - 1..];
      var title := Text.TakeUntil(s3, '\n');
      var s4 := Text.DropUntil(s3, '\n');
      if |s4| < |SummaryLabel| - 1 || s4[..|SummaryLabel| - 1] != SummaryLabel[1..] then None
      else
        var s5 := s4[|SummaryLabel| - 1..];
        Some((title, Text.TakeUntil(s5, '\n')))
  }

  /** The title and the summary read back from the tail of `toString`'s text. */
  lemma TailReadsBack(title: string, summary: string)
    requires '\n' !in title && '\n' !in summary
    ensures ParseTail(TitleLabel[1..] + title + SummaryLabel + summary + Closing) == Some((title, summary))
  {
    var tail2 := SummaryLabel[1..] + summary + Closing;
    var tail1 := TitleLabel[1..] + title + "\n" + tail2;
    assert TitleLabel[1..] + title + SummaryLabel + summary + Closing == tail1;
    assert tail1[|TitleLabel| - 1..] == title + ['\n'] + tail2;
    Text.FieldReadBack(title, '\n', tail2);
    assert tail2[|SummaryLabel| - 1..] == summary + ['\n'] + "]";
    Text.FieldReadBack(summary, '\n', "]");
  }

  /** When no field holds a line break, `toString` loses nothing: its three fields read back exactly. */
  lemma ToStringReadsBack(r: SingleResult)
    requires '\n' !in r.url && '\n' !in r.title && '\n' !in r.summary
    ensures ParseRendering(r.ToString()) == Some((r.url, r.title, r.summary))
  {
    var s := r.ToString();
    var tail1 := TitleLabel[1..] + r.title + SummaryLabel + r.summary + Closing;
    assert s == UrlLabel + (r.url + ['\n'] + tail1);
    assert s[|UrlLabel|..] == r.url + ['\n'] + tail1;
    Text.FieldReadBack(r.url, '\n', tail1);
    TailReadsBack(r.title, r.summary);
  }
}
