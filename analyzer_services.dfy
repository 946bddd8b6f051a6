/**
 * The analyser of internal/services/analyzer_service.go: fetch the page,
 * read its body, then run the extractors of `Utils` on the text and
 * assemble an `AnalysisResult`, or return the zero result with an error.
 */
module Services {
  import opened Wrappers
  import opened Strings
  import opened Dom
  import opened Http
  import Utils

  datatype AnalysisResult = AnalysisResult(
    title: string,
    htmlVersion: string,
    headings: map<string, int>,
    internalLinks: int,
    externalLinks: int,
    inaccessibleLinks: int,
    hasLoginForm: bool)

  /** `AnalysisResult{}`; its nil `Headings` map reads as the empty map. */
  const ZeroResult: AnalysisResult := AnalysisResult("", "", map[], 0, 0, 0, false)

  /**
   * The errors `Analyze` returns: `ErrFetchFailed` ("failed to fetch the
   * URL"), `ErrReadBodyFailed` ("failed to read response body"), or the
   * parse error passed on from `CountLinksConcurrently`.
   */
  datatype AnalyzeError = ErrFetchFailed | ErrReadBodyFailed | LinksFailed(cause: Utils.ParseError)

  /**
   * What every successful result satisfies: a trimmed title, one of the six
   * version labels, a histogram of heading names with positive counts, and
   * link counters where only counted links can be inaccessible.
   */
  predicate Consistent(r: AnalysisResult)
  {
    && Unpadded(r.title)
    && r.htmlVersion in Utils.VersionLabels
    && (forall k :: k in r.headings ==> |k| == 2 && k[0] == 'h' && r.headings[k] >= 1)
    && 0 <= r.internalLinks && 0 <= r.externalLinks
    && 0 <= r.inaccessibleLinks <= r.internalLinks + r.externalLinks
  }

  /**
   * `Analyze(targetURL)`, with `fetch` the outcome of `http.Get(targetURL)`,
   * `parseHtml` standing for `html.Parse`, and `parseUrl` and `head` for
   * `url.Parse` and `http.Head`. Once there are links to count, the target
   * URL must parse, as `base.Host` is read from its parse.
   * The status code is not looked at: any response body is analysed.
   */
  method Analyze(targetURL: string, fetch: Option<Response>, parseHtml: string -> Option<Node>,
                 parseUrl: string -> Option<Utils.Url>, head: string -> Option<int>)
    returns (result: AnalysisResult, err: Option<AnalyzeError>)
    requires fetch.Some? && fetch.value.body.Some? && parseHtml(fetch.value.body.value).Some?
             ==> parseUrl(targetURL).Some?
    ensures fetch.None? ==> err == Some(ErrFetchFailed)
    ensures fetch.Some? && fetch.value.body.None? ==> err == Some(ErrReadBodyFailed)
    ensures fetch.Some? && fetch.value.body.Some? && parseHtml(fetch.value.body.value).None?
            ==> err == Some(LinksFailed(Utils.ParseError))
    ensures err.Some? ==> result == ZeroResult
    ensures err.None? <==> fetch.Some? && fetch.value.body.Some? && parseHtml(fetch.value.body.value).Some?
    ensures err.None? ==>
              var content := fetch.value.body.value;
              var doc := parseHtml(content);
              var links := Utils.LinksOf(targetURL, doc, parseUrl, head);
              && result.title == Utils.TitleOf(doc)
              && result.htmlVersion == Utils.DetectHTMLVersion(content)
              && result.headings == Utils.HeadingsOf(doc)
              && result.internalLinks == links.internal
              && result.externalLinks == links.external
              && result.inaccessibleLinks == links.inaccessible
              && result.hasLoginForm == Utils.ContainsLoginForm(content)
    ensures err.None? ==> Consistent(result)
  {
    if fetch.None? {
      return ZeroResult, Some(ErrFetchFailed);
    }
    if fetch.value.body.None? {
      return ZeroResult, Some(ErrReadBodyFailed);
    }
    var htmlContent := fetch.value.body.value;

    var headings := Utils.CountHeadings(parseHtml(htmlContent));
    var hasLoginForm := Utils.ContainsLoginForm(htmlContent);
    var internal, external, inaccessible, linkErr :=
      Utils.CountLinksConcurrently(targetURL, parseHtml(htmlContent), parseUrl, head);
    if linkErr.Some? {
      return ZeroResult, Some(LinksFailed(linkErr.value));
    }

    var title := Utils.ExtractTitle(parseHtml(htmlContent));
    result := AnalysisResult(title, Utils.DetectHTMLVersion(htmlContent), headings,
                             internal, external, inaccessible, hasLoginForm);
    err := None;

    var root := parseHtml(htmlContent).value;
    Utils.HeadingHistogram(root);
    Utils.TallyLinksMeaning(Utils.Hrefs(Preorder(root)), parseUrl(targetURL).value.host, parseUrl, head);
  }
}
