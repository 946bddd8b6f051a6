/**
 * The earlier analyser of internal/service/analyzer_service.go: it checks
 * the status code before reading the body, extracts only the title and
 * the HTML version, and reports errors inside the result.
 */
module Service {
  import opened Wrappers
  import opened Strings
  import opened Dom
  import opened Http
  import Utils

  /** The result, with `err` the message of the error, if any. */
  datatype AnalysisResult = AnalysisResult(title: string, htmlVersion: string, err: Option<string>)

  const FetchFailedMessage: string := "failed to fetch the URL"
  const NotOkMessage: string := "URL returned non-200 status"
  const ReadBodyFailedMessage: string := "failed to read response body"

  const TitleNotFound: string := "Title not found"

  /** `AnalysisResult{Err: errors.New(message)}`. */
  function Failure(message: string): AnalysisResult
  {
    AnalysisResult("", "", Some(message))
  }

  /**
   * `Analyze(url)`, with `fetch` the outcome of `http.Get(url)` and
   * `parseHtml` standing for `html.Parse`. The checks run in the order
   * fetch, status, body; a page without a title gets "Title not found".
   * Its fallback for an empty version label never applies, because
   * `DetectHTMLVersion` always returns one of its six labels.
   */
  method Analyze(fetch: Option<Response>, parseHtml: string -> Option<Node>) returns (result: AnalysisResult)
    ensures fetch.None? ==> result == Failure(FetchFailedMessage)
    ensures fetch.Some? && fetch.value.statusCode != StatusOK ==> result == Failure(NotOkMessage)
    ensures fetch.Some? && fetch.value.statusCode == StatusOK && fetch.value.body.None?
            ==> result == Failure(ReadBodyFailedMessage)
    ensures result.err.None? <==> fetch.Some? && fetch.value.statusCode == StatusOK && fetch.value.body.Some?
    ensures result.err.None? ==>
              var content := fetch.value.body.value;
              var title := Utils.TitleOf(parseHtml(content));
              && result.htmlVersion == Utils.DetectHTMLVersion(content)
              && (title != "" ==> result.title == title)
              && (title == "" ==> result.title == TitleNotFound)
    ensures result.err.None? ==> result.title != "" && Unpadded(result.title)
                                 && result.htmlVersion in Utils.VersionLabels
  {
    if fetch.None? {
      return Failure(FetchFailedMessage);
    }
    if fetch.value.statusCode != StatusOK {
      return Failure(NotOkMessage);
    }
    if fetch.value.body.None? {
      return Failure(ReadBodyFailedMessage);
    }
    var htmlContent := fetch.value.body.value;

    var title := Utils.ExtractTitle(parseHtml(htmlContent));
    var htmlVersion := Utils.DetectHTMLVersion(htmlContent);

    if title == "" {
      title := TitleNotFound;
    }
    if htmlVersion == "" {
      htmlVersion := Utils.UnknownVersion;
    }

    result := AnalysisResult(title, htmlVersion, None);
  }
}
