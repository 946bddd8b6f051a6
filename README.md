# web-analyzer-service page analysis, modelled in Dafny

The service fetches one web page and reports its title, its HTML version
(read from the doctype declaration), a histogram of its heading tags, how
many of its links are internal, external and unreachable, and whether it
holds a password field. This project models the part of the service that
does that analysis:

- `Utils` (`html_parser.dfy`) — the five extractors of
  `internal/utils/html_parser.go`: `ExtractTitle`, `DetectHTMLVersion`,
  `CountHeadings`, `CountLinksConcurrently` and `ContainsLoginForm`. The
  tree walks are recursive methods whose loops run over a node's children,
  each proved equal to a function over the depth-first pre-order walk of
  the tree (`Dom.Preorder`). The link fan-out is a sequential loop with
  three counters, proved equal to a fold (`TallyLinks`) that does not
  depend on link order.
- `Services` (`analyzer_services.dfy`) — `Analyze` of
  `internal/services/analyzer_service.go`: fetch, read the body, run the
  extractors, and either build an `AnalysisResult` or return the zero
  result with one error.
- `Service` (`analyzer_service.go` of the older `internal/service`
  package, in `analyzer_service.dfy`) — the earlier `Analyze`: fetch,
  status 200, read, then title and version with their fallbacks.
- `DoctypeRegex` (`doctype_regex.dfy`) — a scanner that finds what the
  regular expression `(?i)<!DOCTYPE\s+([^>]+)>` captures: the leftmost
  match, with the greedy `\s+`. It is proved sound against a declarative
  statement of a match, and complete up to the white space that
  `DetectHTMLVersion` trims away.
- `Strings` (`strings.dfy`) — Go's `strings.TrimSpace`, `strings.ToLower`
  (on ASCII letters and on the two letters that Go lowers to ASCII) and
  `strings.Contains`.
- `Dom` (`dom.dfy`) — the node tree of `golang.org/x/net/html` as a
  datatype. The `FirstChild`/`NextSibling` chain is the sequence
  `children`.
- `Http` (`http.dfy`) — what `http.Get` and `io.ReadAll` return, as a value.
- `HtmlParserCases` (`html_parser_cases.dfy`) — the inputs of
  `internal/utils/html_parser_test.go`, worked through the model.

What the model takes as inputs instead of computing:

- `html.Parse` becomes an `Option<Node>`, or a function `parseHtml`,
  with `None` for a parse error.
- `url.Parse` becomes a function `parseUrl` from a link to an optional
  (scheme, host) pair.
- `http.Head` becomes a function `head` from a link to an optional
  status code, with `None` for a transport error.
- `http.Get` together with `io.ReadAll` becomes a parameter `fetch`:
  `None` for a transport error, otherwise a status code and an optional
  body, with `None` for a read error.

Behaviour of the code worth knowing:

- The newer `Analyze` applies no "Title not found" fallback. Only the
  older variant does.
- The only error link counting can return is the `html.Parse` error. An
  unreachable link is never an error; it is only counted.
- The newer `Analyze` never looks at the status code: a 404 page is
  analysed like any other.
- `CountHeadings` counts every two-byte element name that starts with
  `h`, so `hr` is counted as a heading.
- The link test at `internal/utils/html_parser_test.go:86` expects two
  internal links. The code skips the relative link `/internal`, because
  it has no scheme. So by the code the page has one internal link
  (`HtmlParserCases.LinksOfTestPage`).

## Model

| member | source | states |
|---|---|---|
| `Utils.FirstTitleText` | internal/utils/html_parser.go:24-31 | the text of the first `title` element in the walk whose first child has non-empty data; "" exactly when there is none |
| `Utils.ParseTitle` | internal/utils/html_parser.go:24-31 | the recursive `parse` closure leaves in `title` the first title text of the pre-order walk of its node |
| `Utils.ParseChildTitles` | internal/utils/html_parser.go:28-30 | the loop over the children, which stops once `title` is set, yields the first title text of the children's walks |
| `Utils.ExtractTitle` | internal/utils/html_parser.go:15-35 | "" on a parse error; otherwise the trimmed first title text of the document walk; the result never starts or ends with white space |
| `Utils.ClassifyDoctype` | internal/utils/html_parser.go:49-63 | the `switch` always yields one of the six labels |
| `Utils.VersionOfMatch` | internal/utils/html_parser.go:42-47 | no doctype match gives "Unknown HTML version"; the label is always one of six and never "" |
| `Utils.DetectHTMLVersion` | internal/utils/html_parser.go:38-64 | the label is one of "HTML 2.0", "HTML 3.2", "HTML 4.01", "XHTML 1.0", "HTML5", "Unknown HTML version", never "" |
| `Utils.ClassifyPrecedence` | internal/utils/html_parser.go:49-63 | each label holds exactly when its public identifier is present and no earlier one is (order 2.0, 3.2, 4.01, XHTML 1.0); "HTML5" exactly when none is and "html" occurs; unknown exactly when "html" does not occur |
| `Utils.VersionIgnoresCaseAndPadding` | internal/utils/html_parser.go:47 | changing the ASCII case of the captured doctype body or the white space around it does not change the label |
| `Utils.NoBangNoDoctype` | internal/utils/html_parser.go:39-45 | a page without `!` has no doctype match and so an unknown version |
| `Utils.HeadingNames` | internal/utils/html_parser.go:77 | every name selected by the heading test has two characters and starts with `h` |
| `Utils.TraverseHeadings` | internal/utils/html_parser.go:76-83 | the `traverse` closure adds one to `headings[n.Data]` for each heading element of the walk of its node, in walk order |
| `Utils.TraverseChildHeadings` | internal/utils/html_parser.go:80-82 | the loop over the children adds the headings of the children's walks |
| `Utils.CountHeadings` | internal/utils/html_parser.go:67-88 | the empty map on a parse error; otherwise the histogram of the heading names of the document walk |
| `Utils.IncrementAllCounts` | internal/utils/html_parser.go:78 | after `headings[name]++` for each name, every key is an old key or a name, and its value is the old value plus the name's multiplicity |
| `Utils.SumValuesIncrementAll` | internal/utils/html_parser.go:78 | the increments raise the sum of the map's values by the number of names |
| `Utils.HeadingHistogram` | internal/utils/html_parser.go:77-79 | keys are exactly the heading names of the tree, each two characters starting with `h`; each value is the name's count, at least 1; the values sum to the number of heading elements |
| `Utils.CollectAnchorHrefs` | internal/utils/html_parser.go:104-108 | the loop over `n.Attr` appends every `href` value, in attribute order |
| `Utils.CollectHrefs` | internal/utils/html_parser.go:102-113 | the `traverse` closure appends the `href` values of the `a` elements of its node's walk, in document order |
| `Utils.CollectChildHrefs` | internal/utils/html_parser.go:110-112 | the loop over the children appends the `href` values of the children's walks |
| `Utils.LinkContribution` | internal/utils/html_parser.go:123-139 | one link adds 1 to internal + external exactly when it parses with a scheme; to internal exactly when its host is also the base host; to inaccessible exactly when it is counted and its probe errs or answers 400 or more |
| `Utils.ProbeLinks` | internal/utils/html_parser.go:116-143 | the three counters after every link's goroutine has run equal the fold `TallyLinks` of the links |
| `Utils.CountLinksConcurrently` | internal/utils/html_parser.go:91-146 | a parse error gives (0, 0, 0) and the error; otherwise no error and the tally of the document's `href` values against the base host |
| `Utils.TallyOrderIndependent` | internal/utils/html_parser.go:119-143 | a fold of per-link contributions gives the same counters for any rearrangement of the links |
| `Utils.TallyLinksOrderIndependent` | internal/utils/html_parser.go:119-143 | the three link counts do not depend on the order in which the goroutines run |
| `Utils.TallyLinksMeaning` | internal/utils/html_parser.go:123-137 | internal counts the scheme-bearing links whose host is the base host, external the other scheme-bearing links, so internal + external counts the scheme-bearing links; links that fail to parse or lack a scheme count nowhere; inaccessible counts the scheme-bearing links whose probe errs or answers 400 or more, so it is at most internal + external |
| `Utils.ContainsLoginForm` | internal/utils/html_parser.go:149-157 | true exactly when the literal, case-sensitive `type="password"` occurs in the page |
| `Utils.DetectionNeedsEveryChar` | internal/utils/html_parser.go:150 | a page where a login form is detected holds every character of `type="password"` |
| `Strings.ToLower` | internal/utils/html_parser.go:47 | the result has the input's length, and each character is the input's character lowered: A–Z to a–z, U+0130 to `i`, U+212A to `k`, every other character kept |
| `Strings.LowerCharAscii` | internal/utils/html_parser.go:47 | a lowered character is ASCII exactly when it was ASCII or is one of U+0130 and U+212A |
| `Strings.TrimSpace` | internal/utils/html_parser.go:34 | the result neither starts nor ends with white space |
| `Strings.TrimSpaceInfix` | internal/utils/html_parser.go:34 | the result is an infix of the input with only white space around it |
| `Strings.TrimSpaceIgnoresPadding` | internal/utils/html_parser.go:47 | white space around a string does not change its trimmed form |
| `Strings.LowerTrimIgnoresCase` | internal/utils/html_parser.go:47 | strings equal up to ASCII case have equal lower-cased, trimmed forms |
| `Strings.Contains` | internal/utils/html_parser.go:50-58 | true exactly when the substring occurs at some index |
| `Strings.ContainsTransitive` | internal/utils/html_parser.go:50-58 | a string that contains a public identifier contains every part of it |
| `DoctypeRegex.DoctypeCapture` | internal/utils/html_parser.go:40-42 | a capture is the one at the leftmost index where the scanner matches; no capture means the scanner matches at no index |
| `DoctypeRegex.DoctypeCaptureMeaning` | internal/utils/html_parser.go:39-45 | a capture exists exactly when `(?i)<!DOCTYPE\s+([^>]+)>` matches somewhere: a capture comes from a match, and no capture means no index, white-space run and group form one |
| `DoctypeRegex.FindFrom` | internal/utils/html_parser.go:39-40 | the capture reported is the one at the leftmost index where the pattern matches; no capture means no match anywhere |
| `DoctypeRegex.MatchAtSound` | internal/utils/html_parser.go:39 | every capture the scanner reports comes from a match of `(?i)<!DOCTYPE\s+([^>]+)>` at that index |
| `DoctypeRegex.MatchAtComplete` | internal/utils/html_parser.go:39-40 | wherever the pattern matches, the scanner finds a match, and its capture trims to the same text however the white space is split between `\s+` and the group |
| `Services.Analyze` | internal/services/analyzer_service.go:45-98 | fetch failure gives `ErrFetchFailed`, then read failure gives `ErrReadBodyFailed`, then a link-counting error is passed on; every error comes with the zero result; on success each field is the extractor output on the same body, links as components 0, 1, 2 of the tally, and the result is consistent |
| `Service.Analyze` | internal/service/analyzer_service.go:32-66 | fetch error, then a status other than 200, then a read error, each with its fixed message; otherwise no error, the title with "Title not found" for "", never empty, and the version equal to the detector's label |
| `HtmlParserCases.TitleOfTestPage` | internal/utils/html_parser_test.go:10-16 | `<html><head><title>Test Page</title></head><body></body></html>` has the title "Test Page" |
| `HtmlParserCases.TitleOfUntitledPage` | internal/utils/html_parser_test.go:18-23 | a page without a `title` element has the title "" |
| `HtmlParserCases.VersionOfHtml401Doctype` | internal/utils/html_parser_test.go:30 | the HTML 4.01 declaration gives "HTML 4.01" |
| `HtmlParserCases.VersionOfHtml32Doctype` | internal/utils/html_parser_test.go:31 | the HTML 3.2 Final declaration gives "HTML 3.2" |
| `HtmlParserCases.VersionOfDottedHtml401Doctype` | internal/utils/html_parser.go:47-55 | the HTML 4.01 declaration with `PUBLIC` spelled with U+0130 still gives "HTML 4.01", because `strings.ToLower` lowers U+0130 to `i` |
| `HtmlParserCases.VersionOfHtml5Doctype` | internal/utils/html_parser_test.go:32 | `<!DOCTYPE html>` gives "HTML5" |
| `HtmlParserCases.VersionWithoutDoctype` | internal/utils/html_parser_test.go:33 | a page without a doctype gives "Unknown HTML version" |
| `HtmlParserCases.HeadingsOfTestPage` | internal/utils/html_parser_test.go:42-58 | the headings page gives `h1` once, `h2` twice and `h3` once |
| `HtmlParserCases.HrefsOfLinksPage` | internal/utils/html_parser_test.go:74-81 | the walk of the link page (`html`, an empty `head`, a `body` with four anchors) yields the four `href` values in document order |
| `HtmlParserCases.TallyOfTestLinks` | internal/utils/html_parser_test.go:64-88 | with the test's responders, the four `href` values tally to 1 internal, 2 external and 1 inaccessible link against the host "internal-site.com" |
| `HtmlParserCases.LinksOfTestPage` | internal/utils/html_parser_test.go:60-88 | with the test's responders, `CountLinksConcurrently`'s result on the link page's tree with base URL "http://internal-site.com" is 1 internal, 2 external and 1 inaccessible link |
| `HtmlParserCases.LoginFormDetected` | internal/utils/html_parser_test.go:92-95 | a page with `<input type="password">` has a login form |
| `HtmlParserCases.NoLoginFormWithTextInput` | internal/utils/html_parser_test.go:93-96 | the page with only a text input has no login form |
| `HtmlParserCases.NoLoginFormWithSingleQuotes` | internal/utils/html_parser.go:150 | `type='password'` is not detected |
| `HtmlParserCases.NoLoginFormWithUpperCaseType` | internal/utils/html_parser.go:150 | `TYPE="password"` is not detected |

## Left out

- HTTP I/O: `http.Get`, `io.ReadAll` and `http.Head` are parameters that
  hold their outcome; the network, timeouts and closing the body are not
  modelled.
- `html.Parse` (tree construction of the HTML Living Standard, section
  13.2) is not modelled: the extractors take its result. Each extractor in
  the source parses the content again; the model has them use the same
  parse, as `html.Parse` is deterministic.
- `url.Parse` (RFC 3986, section 3) is reduced to an optional (scheme,
  host) pair given by a function parameter.
- Concurrency: the goroutines, `sync.WaitGroup` and channels of
  `CountLinksConcurrently` and of the newer `Analyze` are modelled as
  sequential code. The unsynchronised counter increments in
  `CountLinksConcurrently` are a data race that can lose updates; the
  model counts every update, as the code intends. The `select` in
  `Analyze` has one ready channel at a time, so it is an `if`.
- `Utils.ProbeLinks`: when `http.Head` errs, the source reads
  `resp.StatusCode` from a nil response and panics; the model counts the
  link as inaccessible, as the condition at line 136 intends.
- `Utils.CountLinksConcurrently` and `Services.Analyze` require the base
  URL to parse once there is a document; the source would read `Host`
  from a nil URL and panic if a counted link exists.
- `Strings.ToLower` lowers A–Z and the two non-ASCII letters that Go
  lowers to ASCII (U+0130 to `i`, U+212A to `k`), and keeps every other
  character, where Go would lower many other non-ASCII letters to
  non-ASCII letters. Those letters can never become part of the ASCII
  texts the version detector looks for, so this does not change any
  label. Invalid UTF-8, which Go replaces with U+FFFD, is not modelled.
- The `(?i)` of the doctype pattern is modelled by `Strings.ToLower`.
  None of the letters of `<!doctype` has a non-ASCII case partner, so
  this is the case folding Go's `regexp` applies to it.
- A Go string is modelled as a sequence of code points, not bytes. The
  heading test `len(n.Data) == 2` is modelled as two code points of which
  the second is ASCII, which is what two bytes starting with `h` are in
  valid UTF-8.
- The nil map that `CountHeadings` returns on a parse error is modelled
  as the empty map.
- Logging through `config.Logger`, the Gin handler, the routes, the URL
  validator and the configuration are not part of this model.
