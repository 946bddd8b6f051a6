/**
 * The page extractors of internal/utils/html_parser.go. `html.Parse` is
 * not modelled: each extractor receives its result, `Some(root)` or `None`
 * for a parse error. `url.Parse` and `http.Head` are function parameters.
 */
module Utils {
  import opened Wrappers
  import opened Strings
  import opened Dom
  import DoctypeRegex

  /** The error `html.Parse` reports; the model does not look inside it. */
  datatype ParseError = ParseError

  /*************************** ExtractTitle ***************************/

  /** A `title` element whose first child has non-empty `Data`: the walk stops at it. */
  predicate IsTitleHit(n: Node)
  {
    n.kind == ElementNode && n.data == "title" && |n.children| > 0 && n.children[0].data != ""
  }

  /** The untrimmed text of the first title hit in `ns`; "" when there is none. */
  function FirstTitleText(ns: seq<Node>): (t: string)
    ensures t == "" <==> forall i :: 0 <= i < |ns| ==> !IsTitleHit(ns[i])
    ensures t != "" ==> exists i :: 0 <= i < |ns| && IsTitleHit(ns[i]) && t == ns[i].children[0].data
                                    && forall j :: 0 <= j < i ==> !IsTitleHit(ns[j])
  {
    if ns == [] then ""
    else if IsTitleHit(ns[0]) then ns[0].children[0].data
    else
      var t := FirstTitleText(ns[1..]);
      assert forall i :: 0 < i < |ns| ==> ns[i] == ns[1..][i - 1];
      t
  }

  lemma {:induction false} FirstTitleTextAppend(a: seq<Node>, b: seq<Node>)
    ensures FirstTitleText(a + b) == if FirstTitleText(a) != "" then FirstTitleText(a) else FirstTitleText(b)
  {
    if a == [] {
      assert a + b == b;
    } else {
      assert (a + b)[0] == a[0];
      assert (a + b)[1..] == a[1..] + b;
      FirstTitleTextAppend(a[1..], b);
    }
  }

  /** What `ExtractTitle` returns for a parse result. */
  function TitleOf(doc: Option<Node>): (title: string)
  {
    match doc
    case None => ""
    case Some(root) => TrimSpace(FirstTitleText(Preorder(root)))
  }

  /**
   * The recursive closure `parse` of `ExtractTitle`. It is only ever entered
   * while the captured `title` is still empty, so it returns the value that
   * `title` holds when it returns.
   */
  method ParseTitle(n: Node) returns (title: string)
    ensures title == FirstTitleText(Preorder(n))
    decreases n, 1
  {
    title := "";
    if n.kind == ElementNode && n.data == "title" && |n.children| > 0 {
      title := n.children[0].data;
    }
    assert FirstTitleText([n]) == title by {
      assert [n][1..] == [];
    }
    FirstTitleTextAppend([n], PreorderAll(n.children));
    if title == "" {
      title := ParseChildTitles(n);
    }
  }

  /** The loop of `parse` over the children of `n`, which stops once `title` is set. */
  method ParseChildTitles(n: Node) returns (title: string)
    ensures title == FirstTitleText(PreorderAll(n.children))
    decreases n, 0
  {
    title := "";
    var i := 0;
    while i < |n.children| && title == ""
      invariant 0 <= i <= |n.children|
      invariant title == FirstTitleText(PreorderAll(n.children[..i]))
    {
      PreorderAllStep(n.children, i);
      FirstTitleTextAppend(PreorderAll(n.children[..i]), Preorder(n.children[i]));
      title := ParseTitle(n.children[i]);
      i := i + 1;
    }
    assert n.children == n.children[..i] + n.children[i..];
    PreorderAllAppend(n.children[..i], n.children[i..]);
    FirstTitleTextAppend(PreorderAll(n.children[..i]), PreorderAll(n.children[i..]));
  }

  /** `ExtractTitle`: the trimmed text of the first `<title>` in document order, or "". */
  method ExtractTitle(doc: Option<Node>) returns (title: string)
    ensures title == TitleOf(doc)
    ensures Unpadded(title)
  {
    if doc.None? {
      return "";
    }
    title := ParseTitle(doc.value);
    title := TrimSpace(title);
  }

  /************************* DetectHTMLVersion *************************/

  /** The public identifiers, lower-cased; each starts with the word "html". */
  const Html20Id: string := "html" + " public \"-//w3c//dtd html 2.0//en\""
  const Html32Id: string := "html" + " public \"-//w3c//dtd html 3.2 final//en\""
  const Html401Id: string := "html" + " public \"-//w3c//dtd html 4.01//en\""
  const Xhtml10Id: string := "html" + " public \"-//w3c//dtd xhtml 1.0"

  const UnknownVersion: string := "Unknown HTML version"

  /** The six labels `DetectHTMLVersion` can return. */
  const VersionLabels: set<string> := {"HTML 2.0", "HTML 3.2", "HTML 4.01", "XHTML 1.0", "HTML5", UnknownVersion}

  /** The `switch` of `DetectHTMLVersion`, on the lower-cased, trimmed doctype text. */
  function ClassifyDoctype(doctype: string): (version: string)
    ensures version in VersionLabels
  {
    if Contains(doctype, Html20Id) then "HTML 2.0"
    else if Contains(doctype, Html32Id) then "HTML 3.2"
    else if Contains(doctype, Html401Id) then "HTML 4.01"
    else if Contains(doctype, Xhtml10Id) then "XHTML 1.0"
    else if Contains(doctype, "html") then "HTML5"
    else UnknownVersion
  }

  /** The label for a captured doctype body. */
  function VersionOfCapture(capture: string): (version: string)
  {
    ClassifyDoctype(ToLower(TrimSpace(capture)))
  }

  /** The label for the outcome of the doctype match: unknown when nothing matched. */
  function VersionOfMatch(capture: Option<string>): (version: string)
    ensures version in VersionLabels && version != ""
  {
    match capture
    case None => UnknownVersion
    case Some(c) => VersionOfCapture(c)
  }

  /** `DetectHTMLVersion`: the version label of the first doctype declaration. */
  function DetectHTMLVersion(htmlContent: string): (version: string)
    ensures version in VersionLabels && version != ""
  {
    VersionOfMatch(DoctypeRegex.DoctypeCapture(htmlContent))
  }

  /**
   * The first matching public identifier wins, in the order 2.0, 3.2, 4.01,
   * XHTML 1.0; any other doctype text containing "html" is HTML5; and since
   * every public identifier starts with "html", the label is unknown exactly
   * when the text does not contain "html".
   */
  lemma ClassifyPrecedence(d: string)
    ensures ClassifyDoctype(d) == "HTML 2.0" <==> Contains(d, Html20Id)
    ensures ClassifyDoctype(d) == "HTML 3.2" <==> !Contains(d, Html20Id) && Contains(d, Html32Id)
    ensures ClassifyDoctype(d) == "HTML 4.01" <==>
              !Contains(d, Html20Id) && !Contains(d, Html32Id) && Contains(d, Html401Id)
    ensures ClassifyDoctype(d) == "XHTML 1.0" <==>
              !Contains(d, Html20Id) && !Contains(d, Html32Id) && !Contains(d, Html401Id) && Contains(d, Xhtml10Id)
    ensures ClassifyDoctype(d) == "HTML5" <==>
              !Contains(d, Html20Id) && !Contains(d, Html32Id) && !Contains(d, Html401Id)
              && !Contains(d, Xhtml10Id) && Contains(d, "html")
    ensures ClassifyDoctype(d) == UnknownVersion <==> !Contains(d, "html")
  {
    if Contains(d, Html20Id) { ContainsHtmlVia(d, Html20Id[4..]); }
    if Contains(d, Html32Id) { ContainsHtmlVia(d, Html32Id[4..]); }
    if Contains(d, Html401Id) { ContainsHtmlVia(d, Html401Id[4..]); }
    if Contains(d, Xhtml10Id) { ContainsHtmlVia(d, Xhtml10Id[4..]); }
  }

  /** Text that contains a public identifier contains "html", its first word. */
  lemma ContainsHtmlVia(d: string, rest: string)
    requires Contains(d, "html" + rest)
    ensures Contains(d, "html")
  {
    assert ("html" + rest)[0..4] == "html";
    assert OccursAt("html" + rest, "html", 0);
    ContainsTransitive(d, "html" + rest, "html");
  }

  /**
   * The label depends only on the lower-cased, trimmed doctype body: changing
   * the case of its ASCII letters or the white space around it changes nothing.
   */
  lemma VersionIgnoresCaseAndPadding(capture: string, other: string, pre: string, post: string)
    requires EqualFold(capture, other) && AllSpace(pre) && AllSpace(post)
    ensures VersionOfCapture(pre + other + post) == VersionOfCapture(capture)
  {
    TrimSpaceIgnoresPadding(pre, other, post);
    LowerTrimIgnoresCase(capture, other);
  }

  /**
   * A page without `!` has no doctype declaration, so its version is
   * unknown.
   */
  lemma NoBangNoDoctype(htmlContent: string)
    requires '!' !in htmlContent
    ensures DetectHTMLVersion(htmlContent) == UnknownVersion
  {
    forall i: nat ensures !DoctypeRegex.KeywordAt(htmlContent, i) {
      if DoctypeRegex.KeywordAt(htmlContent, i) {
        DoctypeRegex.KeywordHasBang(htmlContent, i);
      }
    }
    assert DoctypeRegex.DoctypeCapture(htmlContent).None?;
  }

  /************************** CountHeadings **************************/

  /**
   * `n.Type == html.ElementNode && strings.HasPrefix(n.Data, "h") && len(n.Data) == 2`:
   * two bytes starting with `h`, so the second character is ASCII. Nothing
   * checks for a digit, so `hr` and `hx` count too.
   */
  predicate IsHeading(n: Node)
  {
    n.kind == ElementNode && |n.data| == 2 && n.data[0] == 'h' && n.data[1] < '\U{80}'
  }

  /** The names of the heading elements of `ns`, in order. */
  function HeadingNames(ns: seq<Node>): (names: seq<string>)
    ensures forall k :: 0 <= k < |names| ==> |names[k]| == 2 && names[k][0] == 'h'
  {
    if ns == [] then []
    else (if IsHeading(ns[0]) then [ns[0].data] else []) + HeadingNames(ns[1..])
  }

  lemma {:induction false} HeadingNamesAppend(a: seq<Node>, b: seq<Node>)
    ensures HeadingNames(a + b) == HeadingNames(a) + HeadingNames(b)
  {
    if a == [] {
      assert a + b == b;
    } else {
      assert (a + b)[0] == a[0];
      assert (a + b)[1..] == a[1..] + b;
      HeadingNamesAppend(a[1..], b);
    }
  }

  /** `headings[name]++` on a Go map, where a missing key reads as 0. */
  function Increment(m: map<string, int>, name: string): (m': map<string, int>)
  {
    m[name := (if name in m then m[name] else 0) + 1]
  }

  /** The map after `headings[name]++` for each name in turn. */
  function IncrementAll(m: map<string, int>, names: seq<string>): (m': map<string, int>)
    decreases |names|
  {
    if names == [] then m else IncrementAll(Increment(m, names[0]), names[1..])
  }

  lemma {:induction false} IncrementAllAppend(m: map<string, int>, a: seq<string>, b: seq<string>)
    ensures IncrementAll(m, a + b) == IncrementAll(IncrementAll(m, a), b)
    decreases |a|
  {
    if a == [] {
      assert a + b == b;
    } else {
      assert (a + b)[0] == a[0];
      assert (a + b)[1..] == a[1..] + b;
      IncrementAllAppend(Increment(m, a[0]), a[1..], b);
    }
  }

  /** What `CountHeadings` returns for a parse result; Go's nil map reads as the empty map. */
  function HeadingsOf(doc: Option<Node>): (headings: map<string, int>)
  {
    match doc
    case None => map[]
    case Some(root) => IncrementAll(map[], HeadingNames(Preorder(root)))
  }

  /** The recursive closure `traverse` of `CountHeadings`, with the captured map passed through. */
  method TraverseHeadings(n: Node, headings: map<string, int>) returns (counted: map<string, int>)
    ensures counted == IncrementAll(headings, HeadingNames(Preorder(n)))
    decreases n, 1
  {
    counted := headings;
    if n.kind == ElementNode && |n.data| == 2 && n.data[0] == 'h' && n.data[1] < '\U{80}' {
      counted := counted[n.data := (if n.data in counted then counted[n.data] else 0) + 1];
    }
    assert counted == IncrementAll(headings, HeadingNames([n])) by {
      assert [n][1..] == [];
    }
    HeadingNamesAppend([n], PreorderAll(n.children));
    IncrementAllAppend(headings, HeadingNames([n]), HeadingNames(PreorderAll(n.children)));
    counted := TraverseChildHeadings(n, counted);
  }

  /** The loop of `traverse` over the children of `n`. */
  method TraverseChildHeadings(n: Node, headings: map<string, int>) returns (counted: map<string, int>)
    ensures counted == IncrementAll(headings, HeadingNames(PreorderAll(n.children)))
    decreases n, 0
  {
    counted := headings;
    for i := 0 to |n.children|
      invariant counted == IncrementAll(headings, HeadingNames(PreorderAll(n.children[..i])))
    {
      PreorderAllStep(n.children, i);
      HeadingNamesAppend(PreorderAll(n.children[..i]), Preorder(n.children[i]));
      IncrementAllAppend(headings, HeadingNames(PreorderAll(n.children[..i])), HeadingNames(Preorder(n.children[i])));
      counted := TraverseHeadings(n.children[i], counted);
    }
    assert n.children[..|n.children|] == n.children;
  }

  /** `CountHeadings`: the histogram of heading tag names in the document. */
  method CountHeadings(doc: Option<Node>) returns (headings: map<string, int>)
    ensures headings == HeadingsOf(doc)
  {
    if doc.None? {
      return map[];
    }
    headings := TraverseHeadings(doc.value, map[]);
  }

  /** Adding `names` to `m` adds their multiplicities to its values. */
  lemma {:induction false} IncrementAllCounts(m: map<string, int>, names: seq<string>)
    ensures forall k :: k in IncrementAll(m, names) <==> k in m || k in names
    ensures forall k :: k in IncrementAll(m, names) ==>
              IncrementAll(m, names)[k] == (if k in m then m[k] else 0) + multiset(names)[k]
    decreases |names|
  {
    if names != [] {
      IncrementAllCounts(Increment(m, names[0]), names[1..]);
      assert names == [names[0]] + names[1..];
      assert multiset(names) == multiset{names[0]} + multiset(names[1..]);
    }
  }

  /** The sum of the values of a map. */
  ghost function SumValues(m: map<string, int>): int
    decreases |m|
  {
    if m == map[] then 0
    else
      var k :| k in m;
      m[k] + SumValues(m - {k})
  }

  lemma {:induction false} SumValuesRemove(m: map<string, int>, k: string)
    requires k in m
    ensures SumValues(m) == m[k] + SumValues(m - {k})
    decreases |m|
  {
    var j :| j in m && SumValues(m) == m[j] + SumValues(m - {j});
    if j != k {
      assert |m - {j}| == |m| - 1 by { assert (m - {j}).Keys == m.Keys - {j}; }
      SumValuesRemove(m - {j}, k);
      assert |m - {k}| == |m| - 1 by { assert (m - {k}).Keys == m.Keys - {k}; }
      SumValuesRemove(m - {k}, j);
      assert m - {j} - {k} == m - {k} - {j};
    }
  }

  lemma SumValuesIncrement(m: map<string, int>, name: string)
    ensures SumValues(Increment(m, name)) == SumValues(m) + 1
  {
    var m' := Increment(m, name);
    SumValuesRemove(m', name);
    if name in m {
      assert m' - {name} == m - {name};
      SumValuesRemove(m, name);
    } else {
      assert m' - {name} == m;
    }
  }

  lemma {:induction false} SumValuesIncrementAll(m: map<string, int>, names: seq<string>)
    ensures SumValues(IncrementAll(m, names)) == SumValues(m) + |names|
    decreases |names|
  {
    if names != [] {
      SumValuesIncrement(m, names[0]);
      SumValuesIncrementAll(Increment(m, names[0]), names[1..]);
    }
  }

  /**
   * The heading histogram of a parsed document: every key is a two-byte
   * element name starting with `h`, every value is the number of such
   * elements with that name (so at least 1), and the values add up to the
   * number of heading elements in the tree.
   */
  lemma HeadingHistogram(root: Node)
    ensures var h := HeadingsOf(Some(root));
            var names := HeadingNames(Preorder(root));
            && (forall k :: k in h <==> k in names)
            && (forall k :: k in h ==> |k| == 2 && k[0] == 'h' && h[k] == multiset(names)[k] && h[k] >= 1)
            && SumValues(h) == |names|
  {
    var names := HeadingNames(Preorder(root));
    IncrementAllCounts(map[], names);
    SumValuesIncrementAll(map[], names);
    assert SumValues(map[]) == 0;
  }

  /********************** CountLinksConcurrently **********************/

  /** What `url.Parse` yields that the model uses. */
  datatype Url = Url(scheme: string, host: string)

  /** The three counters of the link fan-out. */
  datatype LinkCounts = LinkCounts(internal: int, external: int, inaccessible: int)
  {
    function Plus(other: LinkCounts): (sum: LinkCounts)
    {
      LinkCounts(internal + other.internal, external + other.external, inaccessible + other.inaccessible)
    }
  }

  const NoLinks: LinkCounts := LinkCounts(0, 0, 0)

  predicate IsAnchor(n: Node)
  {
    n.kind == ElementNode && n.data == "a"
  }

  /** The values of the `href` attributes among `attrs`, in order. */
  function HrefValues(attrs: seq<Attribute>): (hrefs: seq<string>)
  {
    if attrs == [] then []
    else HrefValues(attrs[..|attrs| - 1]) + (if attrs[|attrs| - 1].key == "href" then [attrs[|attrs| - 1].val] else [])
  }

  /** The `href` values of the anchors among `ns`, in order. */
  function Hrefs(ns: seq<Node>): (hrefs: seq<string>)
  {
    if ns == [] then []
    else (if IsAnchor(ns[0]) then HrefValues(ns[0].attrs) else []) + Hrefs(ns[1..])
  }

  lemma {:induction false} HrefsAppend(a: seq<Node>, b: seq<Node>)
    ensures Hrefs(a + b) == Hrefs(a) + Hrefs(b)
  {
    if a == [] {
      assert a + b == b;
    } else {
      var own := if IsAnchor(a[0]) then HrefValues(a[0].attrs) else [];
      assert (a + b)[0] == a[0];
      assert (a + b)[1..] == a[1..] + b;
      assert Hrefs(a + b) == own + Hrefs(a[1..] + b);
      HrefsAppend(a[1..], b);
      assert own + (Hrefs(a[1..]) + Hrefs(b)) == (own + Hrefs(a[1..])) + Hrefs(b);
    }
  }

  /** The loop over `n.Attr` of an anchor, appending each `href` value to `links`. */
  method CollectAnchorHrefs(attrs: seq<Attribute>, links: seq<string>) returns (collected: seq<string>)
    ensures collected == links + HrefValues(attrs)
  {
    collected := links;
    for j := 0 to |attrs|
      invariant collected == links + HrefValues(attrs[..j])
    {
      assert attrs[..j + 1][..j] == attrs[..j];
      if attrs[j].key == "href" {
        collected := collected + [attrs[j].val];
      }
    }
    assert attrs[..|attrs|] == attrs;
  }

  /** The recursive closure `traverse` of `CountLinksConcurrently`, appending to the captured `links`. */
  method CollectHrefs(n: Node, links: seq<string>) returns (collected: seq<string>)
    ensures collected == links + Hrefs(Preorder(n))
    decreases n, 1
  {
    collected := links;
    if n.kind == ElementNode && n.data == "a" {
      collected := CollectAnchorHrefs(n.attrs, collected);
    }
    collected := CollectChildHrefs(n, collected);
    HrefsAppend([n], PreorderAll(n.children));
    assert [n][1..] == [];
  }

  /** The loop of `traverse` over the children of `n`. */
  method CollectChildHrefs(n: Node, links: seq<string>) returns (collected: seq<string>)
    ensures collected == links + Hrefs(PreorderAll(n.children))
    decreases n, 0
  {
    collected := links;
    for i := 0 to |n.children|
      invariant collected == links + Hrefs(PreorderAll(n.children[..i]))
    {
      PreorderAllStep(n.children, i);
      HrefsAppend(PreorderAll(n.children[..i]), Preorder(n.children[i]));
      collected := CollectHrefs(n.children[i], collected);
    }
    assert n.children[..|n.children|] == n.children;
  }

  /** A probe outcome of `http.Head`: `None` for an error, else the status code. */
  predicate ProbeFails(probe: Option<int>)
  {
    probe.None? || probe.value >= 400
  }

  /** The link parses and has a scheme, so the fan-out counts it. */
  predicate IsCounted(link: string, parseUrl: string -> Option<Url>)
  {
    parseUrl(link).Some? && parseUrl(link).value.scheme != ""
  }

  /** What the goroutine for `link` adds to the three counters. */
  function LinkContribution(link: string, baseHost: string, parseUrl: string -> Option<Url>,
                            head: string -> Option<int>): (counts: LinkCounts)
    ensures counts.internal + counts.external == (if IsCounted(link, parseUrl) then 1 else 0)
    ensures counts.internal == 1 <==> IsCounted(link, parseUrl) && parseUrl(link).value.host == baseHost
    ensures counts.inaccessible == 1 <==> IsCounted(link, parseUrl) && ProbeFails(head(link))
    ensures 0 <= counts.inaccessible <= counts.internal + counts.external
  {
    if !IsCounted(link, parseUrl) then NoLinks
    else
      var internal := parseUrl(link).value.host == baseHost;
      LinkCounts(if internal then 1 else 0, if internal then 0 else 1, if ProbeFails(head(link)) then 1 else 0)
  }

  /** The counters after adding `contribution(l)` for every `l` of `links`. */
  function Tally(links: seq<string>, contribution: string -> LinkCounts): (counts: LinkCounts)
  {
    if links == [] then NoLinks
    else contribution(links[0]).Plus(Tally(links[1..], contribution))
  }

  /** The counters after every goroutine for `links` has finished. */
  function TallyLinks(links: seq<string>, baseHost: string, parseUrl: string -> Option<Url>,
                      head: string -> Option<int>): (counts: LinkCounts)
  {
    Tally(links, link => LinkContribution(link, baseHost, parseUrl, head))
  }

  /**
   * The fan-out over `links`, one iteration per goroutine: classify by host,
   * then probe. The counters are updated one link at a time.
   */
  method ProbeLinks(links: seq<string>, baseHost: string, parseUrl: string -> Option<Url>,
                    head: string -> Option<int>)
    returns (internal: int, external: int, inaccessible: int)
    ensures LinkCounts(internal, external, inaccessible) == TallyLinks(links, baseHost, parseUrl, head)
  {
    internal, external, inaccessible := 0, 0, 0;
    for i := 0 to |links|
      invariant LinkCounts(internal, external, inaccessible) == TallyLinks(links[..i], baseHost, parseUrl, head)
    {
      var link := links[i];
      assert links[..i + 1] == links[..i] + [link];
      TallySnoc(links[..i], link, l => LinkContribution(l, baseHost, parseUrl, head));
      var parsed := parseUrl(link);
      if parsed.None? || parsed.value.scheme == "" {
        continue;
      }
      if parsed.value.host == baseHost {
        internal := internal + 1;
      } else {
        external := external + 1;
      }
      var probe := head(link);
      if probe.None? || probe.value >= 400 {
        inaccessible := inaccessible + 1;
      }
    }
    assert links[..|links|] == links;
  }

  /**
   * `CountLinksConcurrently`: a parse error gives (0, 0, 0) and the error;
   * otherwise the tally of the document's `href` values against the host of
   * `baseURL`.
   */
  method CountLinksConcurrently(baseURL: string, doc: Option<Node>, parseUrl: string -> Option<Url>,
                                head: string -> Option<int>)
    returns (internal: int, external: int, inaccessible: int, err: Option<ParseError>)
    requires doc.Some? ==> parseUrl(baseURL).Some?
    ensures err == if doc.None? then Some(ParseError) else None
    ensures LinkCounts(internal, external, inaccessible) == LinksOf(baseURL, doc, parseUrl, head)
  {
    if doc.None? {
      return 0, 0, 0, Some(ParseError);
    }
    var base := parseUrl(baseURL).value;
    var links := CollectHrefs(doc.value, []);
    assert links == Hrefs(Preorder(doc.value));
    internal, external, inaccessible := ProbeLinks(links, base.host, parseUrl, head);
    err := None;
  }

  /** The counts `CountLinksConcurrently` returns for a parse result. */
  function LinksOf(baseURL: string, doc: Option<Node>, parseUrl: string -> Option<Url>,
                   head: string -> Option<int>): (counts: LinkCounts)
    requires doc.Some? ==> parseUrl(baseURL).Some?
  {
    match doc
    case None => NoLinks
    case Some(root) => TallyLinks(Hrefs(Preorder(root)), parseUrl(baseURL).value.host, parseUrl, head)
  }

  /** Tallying two lists one after the other adds their counters. */
  lemma {:induction false} TallyAppend(a: seq<string>, b: seq<string>, contribution: string -> LinkCounts)
    ensures Tally(a + b, contribution) == Tally(a, contribution).Plus(Tally(b, contribution))
  {
    if a == [] {
      assert a + b == b;
    } else {
      assert (a + b)[1..] == a[1..] + b;
      TallyAppend(a[1..], b, contribution);
    }
  }

  /** Visiting one more link adds its contribution. */
  lemma TallySnoc(a: seq<string>, x: string, contribution: string -> LinkCounts)
    ensures Tally(a + [x], contribution) == Tally(a, contribution).Plus(contribution(x))
  {
    TallyAppend(a, [x], contribution);
    assert [x][1..] == [];
  }

  /** Removing the entry at `j` removes one occurrence of it. */
  lemma MultisetRemove(b: seq<string>, j: nat)
    requires j < |b|
    ensures multiset(b[..j] + b[j + 1..]) == multiset(b) - multiset{b[j]}
  {
    assert b == b[..j] + [b[j]] + b[j + 1..];
  }

  /** The entry at `j` can be tallied first. */
  lemma TallyRemove(b: seq<string>, j: nat, contribution: string -> LinkCounts)
    requires j < |b|
    ensures Tally(b, contribution) == contribution(b[j]).Plus(Tally(b[..j] + b[j + 1..], contribution))
  {
    var pre, post := b[..j], b[j + 1..];
    assert b == pre + ([b[j]] + post);
    TallyAppend(pre, [b[j]] + post, contribution);
    TallyAppend(pre, post, contribution);
    assert ([b[j]] + post)[1..] == post;
  }

  /** Any rearrangement of the same links gives the same counters. */
  lemma {:induction false} TallyOrderIndependent(a: seq<string>, b: seq<string>, contribution: string -> LinkCounts)
    requires multiset(a) == multiset(b)
    ensures Tally(a, contribution) == Tally(b, contribution)
    decreases |a|
  {
    if a != [] {
      var x := a[0];
      assert x in multiset(b);
      var j :| 0 <= j < |b| && b[j] == x;
      MultisetRemove(a, 0);
      MultisetRemove(b, j);
      assert a[..0] + a[1..] == a[1..];
      TallyOrderIndependent(a[1..], b[..j] + b[j + 1..], contribution);
      TallyRemove(b, j, contribution);
    } else {
      assert |b| == |multiset(b)| == 0;
    }
  }

  /**
   * The counts do not depend on the order in which the goroutines run:
   * any rearrangement of the same links gives the same three numbers.
   */
  lemma TallyLinksOrderIndependent(a: seq<string>, b: seq<string>, baseHost: string,
                                   parseUrl: string -> Option<Url>, head: string -> Option<int>)
    requires multiset(a) == multiset(b)
    ensures TallyLinks(a, baseHost, parseUrl, head) == TallyLinks(b, baseHost, parseUrl, head)
  {
    TallyOrderIndependent(a, b, link => LinkContribution(link, baseHost, parseUrl, head));
  }

  /** The links of `links` that `keep` selects, in order. */
  function Filter(links: seq<string>, keep: string -> bool): (kept: seq<string>)
    ensures |kept| <= |links|
  {
    if links == [] then []
    else (if keep(links[0]) then [links[0]] else []) + Filter(links[1..], keep)
  }

  /**
   * Each link that parses with a scheme is counted exactly once, as internal
   * when its host is the base host and as external otherwise; the others are
   * counted nowhere; only counted links can be inaccessible, namely those
   * whose probe errs or answers with a status of 400 or more.
   */
  lemma {:induction false} TallyLinksMeaning(links: seq<string>, baseHost: string,
                                             parseUrl: string -> Option<Url>, head: string -> Option<int>)
    ensures var t := TallyLinks(links, baseHost, parseUrl, head);
            && t.internal == |Filter(links, l => IsCounted(l, parseUrl) && parseUrl(l).value.host == baseHost)|
            && t.external == |Filter(links, l => IsCounted(l, parseUrl) && parseUrl(l).value.host != baseHost)|
            && t.internal + t.external == |Filter(links, l => IsCounted(l, parseUrl))|
            && t.inaccessible == |Filter(links, l => IsCounted(l, parseUrl) && ProbeFails(head(l)))|
            && t.inaccessible <= t.internal + t.external
  {
    if links != [] {
      TallyLinksMeaning(links[1..], baseHost, parseUrl, head);
    }
  }

  /**************************** ContainsLoginForm ****************************/

  const PasswordAttr: string := "type=\"password\""

  /** `ContainsLoginForm`: the literal, case-sensitive text `type="password"` occurs in the page. */
  function ContainsLoginForm(htmlContent: string): (found: bool)
    ensures found <==> exists i :: OccursAt(htmlContent, PasswordAttr, i)
  {
    Contains(htmlContent, PasswordAttr)
  }

  /**
   * Every character of `type="password"` occurs in a page where a login form
   * is detected; a page that writes `type='password'` and has no double
   * quote, for one, is not detected.
   */
  lemma DetectionNeedsEveryChar(htmlContent: string)
    requires ContainsLoginForm(htmlContent)
    ensures forall c :: c in PasswordAttr ==> c in htmlContent
  {
    var i :| OccursAt(htmlContent, PasswordAttr, i);
    forall c | c in PasswordAttr ensures c in htmlContent {
      var k :| 0 <= k < |PasswordAttr| && PasswordAttr[k] == c;
      assert htmlContent[i + k] == htmlContent[i..i + |PasswordAttr|][k];
    }
  }
}
