/**
 * The inputs of internal/utils/html_parser_test.go, worked through the
 * model. The documents are written as the trees `html.Parse` builds for
 * them, without the white-space text nodes between elements.
 */
module HtmlParserCases {
  import opened Wrappers
  import opened Strings
  import opened Dom
  import opened Utils
  import DoctypeRegex

  function Element(name: string, children: seq<Node>): Node
  {
    Node(ElementNode, name, [], children)
  }

  function Text(data: string): Node
  {
    Node(TextNode, data, [], [])
  }

  function Document(html: Node): Node
  {
    Node(DocumentNode, "", [], [html])
  }

  /** `<html><head>…</head><body>…</body></html>` as `html.Parse` builds it. */
  function Page(head: seq<Node>, body: seq<Node>): Node
  {
    Document(Element("html", [Element("head", head), Element("body", body)]))
  }

  /** The walk of a page: document, `html`, `head`, the head's walk, `body`, the body's walk. */
  lemma PreorderOfPage(head: seq<Node>, body: seq<Node>)
    ensures var h, b := Element("head", head), Element("body", body);
            Preorder(Page(head, body))
            == [Page(head, body), Element("html", [h, b]), h] + PreorderAll(head) + [b] + PreorderAll(body)
  {
    var h, b := Element("head", head), Element("body", body);
    var html := Element("html", [h, b]);
    var ph, pb := PreorderAll(head), PreorderAll(body);
    assert Preorder(h) == [h] + ph;
    assert Preorder(b) == [b] + pb;
    assert Preorder(html) == [html] + Preorder(h) + Preorder(b) by {
      assert html.children == [h] + [b];
      PreorderAllAppend([h], [b]);
      PreorderAllSingle(h);
      PreorderAllSingle(b);
    }
    OnlyChild(Page(head, body));
    assert [Page(head, body)] + ([html] + ([h] + ph) + ([b] + pb))
           == [Page(head, body), html, h] + ph + [b] + pb;
  }

  /** The walk of a node with one child is the node, then the child's walk. */
  lemma OnlyChild(n: Node)
    requires |n.children| == 1
    ensures Preorder(n) == [n] + Preorder(n.children[0])
  {
    assert n.children[1..] == [];
    assert PreorderAll(n.children[1..]) == [];
  }

  const TestTitle: Node := Element("title", [Text("Test Page")])
  const TestHead: Node := Element("head", [TestTitle])
  const TestBody: Node := Element("body", [])
  const TestHtml: Node := Element("html", [TestHead, TestBody])

  /** The walk of `<html><head><title>Test Page</title></head><body></body></html>`. */
  lemma PreorderOfTestPage()
    ensures Preorder(Document(TestHtml))
            == [Document(TestHtml), TestHtml, TestHead] + [TestTitle, Text("Test Page"), TestBody]
  {
    var text := Text("Test Page");
    assert Preorder(text) == [text];
    assert Preorder(TestTitle) == [TestTitle, text] by { OnlyChild(TestTitle); }
    assert Preorder(TestHead) == [TestHead, TestTitle, text] by { OnlyChild(TestHead); }
    assert Preorder(TestBody) == [TestBody];
    assert Preorder(TestHtml) == [TestHtml, TestHead, TestTitle, text, TestBody] by {
      assert TestHtml.children == [TestHead] + [TestBody];
      PreorderAllAppend([TestHead], [TestBody]);
      PreorderAllSingle(TestHead);
      PreorderAllSingle(TestBody);
    }
    OnlyChild(Document(TestHtml));
  }

  lemma TrimTestPage()
    ensures TrimSpace("Test Page") == "Test Page"
  {
    TrimSpaceOf("Test Page", [], "Test Page", []);
  }

  /** The walk meets the `title` element after three elements that are not. */
  lemma FirstTitleOfTestPage()
    ensures FirstTitleText(Preorder(Document(TestHtml))) == "Test Page"
  {
    var before, after := [Document(TestHtml), TestHtml, TestHead], [TestTitle, Text("Test Page"), TestBody];
    PreorderOfTestPage();
    FirstTitleTextAppend(before, after);
    assert !IsTitleHit(before[0]) && !IsTitleHit(before[1]) && !IsTitleHit(before[2]);
    assert IsTitleHit(after[0]);
  }

  /** That page has the title "Test Page". */
  lemma TitleOfTestPage()
    ensures TitleOf(Some(Document(TestHtml))) == "Test Page"
  {
    FirstTitleOfTestPage();
    TrimTestPage();
  }

  /** The doctype body "html" names no public identifier, so it is HTML5. */
  lemma ClassifyHtml()
    ensures ClassifyDoctype("html") == "HTML5"
  {
    assert OccursAt("html", "html", 0);
  }

  /** A doctype body that trims to "html" is HTML5. */
  lemma VersionOfHtmlCapture(capture: string)
    requires TrimSpace(capture) == "html"
    ensures VersionOfCapture(capture) == "HTML5"
  {
    assert ToLower("html") == "html";
    ClassifyHtml();
  }

  /** The pattern matches `<!DOCTYPE html>` at its start, `\s+` taking the space. */
  lemma Html5DoctypeMatches()
    ensures DoctypeRegex.IsMatch("<!DOCTYPE html>", 0, " ", "html")
  {
    var s := "<!DOCTYPE html>";
    assert s[0..9] == "<!DOCTYPE";
    assert ToLower("<!DOCTYPE") == DoctypeRegex.Keyword;
    assert s[9..15] == " " + "html" + ">";
  }

  lemma TrimHtml()
    ensures TrimSpace("html") == "html"
  {
    TrimSpaceOf("html", [], "html", []);
  }

  /** `<!DOCTYPE html>` is HTML5. */
  lemma VersionOfHtml5Doctype()
    ensures DetectHTMLVersion("<!DOCTYPE html>") == "HTML5"
  {
    var s := "<!DOCTYPE html>";
    Html5DoctypeMatches();
    DoctypeRegex.MatchAtComplete(s, 0, " ", "html");
    var capture := DoctypeRegex.MatchAt(s, 0);
    assert DoctypeRegex.DoctypeCapture(s) == capture;
    TrimHtml();
    VersionOfHtmlCapture(capture.value);
  }

  /** A page without a doctype declaration has an unknown version. */
  lemma VersionWithoutDoctype()
    ensures DetectHTMLVersion("<html><head></head><body></body></html>") == UnknownVersion
  {
    NoBangNoDoctype("<html><head></head><body></body></html>");
  }

  /** A password input is detected, whatever surrounds it. */
  lemma LoginFormDetected(pre: string, post: string)
    ensures ContainsLoginForm(pre + "<input type=\"password\">" + post)
  {
    var s := pre + "<input type=\"password\">" + post;
    assert s[|pre| + 7..|pre| + 7 + |PasswordAttr|] == PasswordAttr;
    assert OccursAt(s, PasswordAttr, |pre| + 7);
  }

  /** `<hN>text</hN>`. */
  function Heading(name: string, text: string): Node
  {
    Element(name, [Text(text)])
  }

  /** A heading element and its text node yield the heading's name once. */
  lemma HeadingNamesOfHeading(name: string, text: string)
    requires |name| == 2 && name[0] == 'h' && name[1] < '\U{80}'
    ensures HeadingNames(Preorder(Heading(name, text))) == [name]
  {
    OnlyChild(Heading(name, text));
    assert Preorder(Heading(name, text)) == [Heading(name, text)] + [Text(text)];
    HeadingNamesAppend([Heading(name, text)], [Text(text)]);
  }

  /** The body of the headings test: `h1`, `h2`, `h2`, `h3`. */
  const HeadingsBody: seq<Node> := [Heading("h1", "Heading 1"), Heading("h2", "Heading 2"),
                                    Heading("h2", "Heading 2 again"), Heading("h3", "Heading 3")]

  /** The walk of four siblings is their walks one after another. */
  lemma PreorderAllFour(a: Node, b: Node, c: Node, d: Node)
    ensures PreorderAll([a, b, c, d]) == Preorder(a) + Preorder(b) + Preorder(c) + Preorder(d)
  {
    assert [a, b, c, d][1..] == [b, c, d];
    assert [b, c, d][1..] == [c, d];
    assert [c, d][1..] == [d];
    assert [d][1..] == [];
    var pa, pb, pc, pd := Preorder(a), Preorder(b), Preorder(c), Preorder(d);
    assert PreorderAll([d]) == pd + [];
    assert PreorderAll([c, d]) == pc + pd;
    assert PreorderAll([b, c, d]) == pb + (pc + pd);
    assert PreorderAll([a, b, c, d]) == pa + (pb + (pc + pd));
  }

  /** The heading names of four walks one after another. */
  lemma HeadingNamesFour(a: seq<Node>, b: seq<Node>, c: seq<Node>, d: seq<Node>)
    ensures HeadingNames(a + b + c + d) == HeadingNames(a) + HeadingNames(b) + HeadingNames(c) + HeadingNames(d)
  {
    HeadingNamesAppend(a + b + c, d);
    HeadingNamesAppend(a + b, c);
    HeadingNamesAppend(a, b);
  }

  /** Four heading elements, each with its text, yield their four names. */
  lemma HeadingNamesOfFour(n1: string, n2: string, n3: string, n4: string, t1: string, t2: string, t3: string, t4: string)
    requires |n1| == 2 && n1[0] == 'h' && n1[1] < '\U{80}'
    requires |n2| == 2 && n2[0] == 'h' && n2[1] < '\U{80}'
    requires |n3| == 2 && n3[0] == 'h' && n3[1] < '\U{80}'
    requires |n4| == 2 && n4[0] == 'h' && n4[1] < '\U{80}'
    ensures HeadingNames(PreorderAll([Heading(n1, t1), Heading(n2, t2), Heading(n3, t3), Heading(n4, t4)]))
            == [n1, n2, n3, n4]
  {
    HeadingNamesOfHeading(n1, t1);
    HeadingNamesOfHeading(n2, t2);
    HeadingNamesOfHeading(n3, t3);
    HeadingNamesOfHeading(n4, t4);
    PreorderAllFour(Heading(n1, t1), Heading(n2, t2), Heading(n3, t3), Heading(n4, t4));
    HeadingNamesFour(Preorder(Heading(n1, t1)), Preorder(Heading(n2, t2)),
                     Preorder(Heading(n3, t3)), Preorder(Heading(n4, t4)));
  }

  /** Below a node that is not a heading, the headings are those of its children. */
  lemma HeadingNamesBelow(n: Node)
    requires !IsHeading(n)
    ensures HeadingNames(Preorder(n)) == HeadingNames(PreorderAll(n.children))
  {
    var w := PreorderAll(n.children);
    assert [n][1..] == [];
    assert HeadingNames([n]) == [] + HeadingNames([]);
    HeadingNamesAppend([n], w);
    assert Preorder(n) == [n] + w;
  }

  /** The walk of a single sibling is its own walk. */
  lemma PreorderAllSingle(c: Node)
    ensures PreorderAll([c]) == Preorder(c)
  {
    assert [c][1..] == [];
    assert PreorderAll([c][1..]) == [];
  }

  /** A walk without heading elements has no heading names. */
  lemma {:induction false} NoHeadingNames(ns: seq<Node>)
    requires forall i :: 0 <= i < |ns| ==> !IsHeading(ns[i])
    ensures HeadingNames(ns) == []
  {
    if ns != [] {
      NoHeadingNames(ns[1..]);
    }
  }

  /** The nodes a page puts around the body's children: document, `html`, `head` and `body`. */
  function PageFrame(cs: seq<Node>): (frame: seq<Node>)
    ensures |frame| == 4
    ensures forall i :: 0 <= i < |frame| ==> frame[i].kind != ElementNode || |frame[i].data| == 4
  {
    var h, b := Element("head", []), Element("body", cs);
    [Page([], cs), Element("html", [h, b]), h, b]
  }

  lemma PreorderOfBodyPage(cs: seq<Node>)
    ensures Preorder(Page([], cs)) == PageFrame(cs) + PreorderAll(cs)
  {
    var h, b := Element("head", []), Element("body", cs);
    PreorderOfPage([], cs);
    assert PreorderAll([]) == [];
    assert [Page([], cs), Element("html", [h, b]), h] + [] + [b] == PageFrame(cs);
  }

  /** The document, `html`, `head` and `body` nodes of a page without head content are not headings. */
  lemma HeadingNamesUnderBody(cs: seq<Node>)
    ensures HeadingNames(Preorder(Page([], cs))) == HeadingNames(PreorderAll(cs))
  {
    PreorderOfBodyPage(cs);
    HeadingNamesAfter(PageFrame(cs), PreorderAll(cs));
  }

  /** Nodes that are not headings add no heading names in front of a walk. */
  lemma HeadingNamesAfter(frame: seq<Node>, rest: seq<Node>)
    requires forall i :: 0 <= i < |frame| ==> !IsHeading(frame[i])
    ensures HeadingNames(frame + rest) == HeadingNames(rest)
  {
    NoHeadingNames(frame);
    HeadingNamesAppend(frame, rest);
  }

  /** The page of the headings test. */
  const HeadingsPage: Node := Page([], HeadingsBody)

  lemma HeadingNamesOfTestBody()
    ensures HeadingNames(Preorder(HeadingsPage)) == ["h1", "h2", "h2", "h3"]
  {
    HeadingNamesOfFour("h1", "h2", "h2", "h3", "Heading 1", "Heading 2", "Heading 2 again", "Heading 3");
    HeadingNamesUnderBody(HeadingsBody);
  }

  /** The headings test page counts `h1` once, `h2` twice and `h3` once. */
  lemma HeadingsOfTestPage()
    ensures HeadingsOf(Some(HeadingsPage)) == map["h1" := 1, "h2" := 2, "h3" := 1]
  {
    HeadingNamesOfTestBody();
    var m1 := Increment(map[], "h1");
    var m2 := Increment(m1, "h2");
    var m3 := Increment(m2, "h2");
    var m4 := Increment(m3, "h3");
    assert IncrementAll(map[], ["h1", "h2", "h2", "h3"]) == IncrementAll(m1, ["h2", "h2", "h3"]);
    assert IncrementAll(m1, ["h2", "h2", "h3"]) == IncrementAll(m2, ["h2", "h3"]);
    assert IncrementAll(m2, ["h2", "h3"]) == IncrementAll(m3, ["h3"]);
    assert IncrementAll(m3, ["h3"]) == IncrementAll(m4, []);
    assert m4 == map["h1" := 1, "h2" := 2, "h3" := 1];
  }

  /** Four links are tallied one after another. */
  lemma TallyFour(a: string, b: string, c: string, d: string, contribution: string -> LinkCounts)
    ensures Tally([a, b, c, d], contribution)
            == contribution(a).Plus(contribution(b)).Plus(contribution(c)).Plus(contribution(d))
  {
    assert [a, b, c, d][1..] == [b, c, d];
    assert [b, c, d][1..] == [c, d];
    assert [c, d][1..] == [d];
    assert [d][1..] == [];
    var fa, fb, fc, fd := contribution(a), contribution(b), contribution(c), contribution(d);
    assert Tally([d], contribution) == fd.Plus(NoLinks);
    assert Tally([c, d], contribution) == fc.Plus(fd.Plus(NoLinks));
    assert Tally([b, c, d], contribution) == fb.Plus(fc.Plus(fd.Plus(NoLinks)));
  }

  /** `url.Parse` and `http.Head` answer as the link test sets them up. */
  predicate TestOracles(parseUrl: string -> Option<Url>, head: string -> Option<int>)
  {
    && parseUrl("http://example.com") == Some(Url("http", "example.com"))
    && parseUrl("http://internal-site.com") == Some(Url("http", "internal-site.com"))
    && parseUrl("/internal") == Some(Url("", ""))
    && parseUrl("https://broken-link-test.com/") == Some(Url("https", "broken-link-test.com"))
    && head("http://example.com") == Some(200)
    && head("http://internal-site.com") == Some(200)
    && head("https://broken-link-test.com/") == Some(404)
  }

  const TestLinks: seq<string> :=
    ["http://example.com", "http://internal-site.com", "/internal", "https://broken-link-test.com/"]

  const TestHost: string := "internal-site.com"

  /** What each test link adds to the counters. */
  lemma ContributionsOfTestLinks(parseUrl: string -> Option<Url>, head: string -> Option<int>)
    requires TestOracles(parseUrl, head)
    ensures LinkContribution(TestLinks[0], TestHost, parseUrl, head) == LinkCounts(0, 1, 0)
    ensures LinkContribution(TestLinks[1], TestHost, parseUrl, head) == LinkCounts(1, 0, 0)
    ensures LinkContribution(TestLinks[2], TestHost, parseUrl, head) == NoLinks
    ensures LinkContribution(TestLinks[3], TestHost, parseUrl, head) == LinkCounts(0, 1, 1)
  {
    assert "example.com" != TestHost by { assert "example.com"[0] != TestHost[0]; }
    assert "broken-link-test.com" != TestHost by { assert "broken-link-test.com"[0] != TestHost[0]; }
  }

  /** The four contributions of the link test add up to one internal, two external and one inaccessible link. */
  lemma SumOfTestContributions(c0: LinkCounts, c1: LinkCounts, c2: LinkCounts, c3: LinkCounts)
    requires c0 == LinkCounts(0, 1, 0) && c1 == LinkCounts(1, 0, 0)
    requires c2 == NoLinks && c3 == LinkCounts(0, 1, 1)
    ensures c0.Plus(c1).Plus(c2).Plus(c3) == LinkCounts(1, 2, 1)
  {
  }

  /** The four `href` values of the link test against the base host "internal-site.com". */
  lemma TallyOfTestLinks(parseUrl: string -> Option<Url>, head: string -> Option<int>)
    requires TestOracles(parseUrl, head)
    ensures TallyLinks(TestLinks, TestHost, parseUrl, head) == LinkCounts(1, 2, 1)
  {
    TallyLinksFour(TestLinks, TestHost, parseUrl, head);
    ContributionsOfTestLinks(parseUrl, head);
    SumOfTestContributions(LinkContribution(TestLinks[0], TestHost, parseUrl, head),
                           LinkContribution(TestLinks[1], TestHost, parseUrl, head),
                           LinkContribution(TestLinks[2], TestHost, parseUrl, head),
                           LinkContribution(TestLinks[3], TestHost, parseUrl, head));
  }

  /** `<a href="…">text</a>`. */
  function Anchor(href: string, text: string): Node
  {
    Node(ElementNode, "a", [Attribute("href", href)], [Text(text)])
  }

  /** An anchor with one `href` and a text child yields that `href`. */
  lemma HrefsOfAnchor(href: string, text: string)
    ensures Hrefs(Preorder(Anchor(href, text))) == [href]
  {
    var a, t := Anchor(href, text), Text(text);
    OnlyChild(a);
    assert Preorder(t) == [t];
    assert Preorder(a) == [a, t];
    assert HrefValues(a.attrs) == [href] by {
      assert a.attrs[..0] == [];
    }
    assert [a, t][1..] == [t];
    assert [t][1..] == [];
    assert Hrefs([t]) == [] + Hrefs([]);
    assert Hrefs([a, t]) == HrefValues(a.attrs) + Hrefs([t]);
  }

  /** The `href` values of four walks one after another. */
  lemma HrefsFour(a: seq<Node>, b: seq<Node>, c: seq<Node>, d: seq<Node>)
    ensures Hrefs(a + b + c + d) == Hrefs(a) + Hrefs(b) + Hrefs(c) + Hrefs(d)
  {
    HrefsAppend(a + b + c, d);
    HrefsAppend(a + b, c);
    HrefsAppend(a, b);
  }

  /** A walk without anchors has no `href` values. */
  lemma {:induction false} NoHrefs(ns: seq<Node>)
    requires forall i :: 0 <= i < |ns| ==> !IsAnchor(ns[i])
    ensures Hrefs(ns) == []
  {
    if ns != [] {
      NoHrefs(ns[1..]);
    }
  }

  /** Nodes that are not anchors add no `href` values in front of a walk. */
  lemma HrefsAfter(frame: seq<Node>, rest: seq<Node>)
    requires forall i :: 0 <= i < |frame| ==> !IsAnchor(frame[i])
    ensures Hrefs(frame + rest) == Hrefs(rest)
  {
    NoHrefs(frame);
    HrefsAppend(frame, rest);
  }

  /** The anchors of the body of the link test. */
  const LinksBody: seq<Node> := [Anchor(TestLinks[0], "External Link"), Anchor(TestLinks[1], "Internal Link"),
                                 Anchor(TestLinks[2], "Internal Link 2"), Anchor(TestLinks[3], "Broken Link")]

  /** The page of the link test. */
  const LinksPage: Node := Page([], LinksBody)

  /** A page whose body holds four anchors collects their `href` values in document order. */
  lemma HrefsOfFourAnchorPage(h0: string, h1: string, h2: string, h3: string,
                              t0: string, t1: string, t2: string, t3: string)
    ensures Hrefs(Preorder(Page([], [Anchor(h0, t0), Anchor(h1, t1), Anchor(h2, t2), Anchor(h3, t3)])))
            == [h0, h1, h2, h3]
  {
    var a0, a1, a2, a3 := Anchor(h0, t0), Anchor(h1, t1), Anchor(h2, t2), Anchor(h3, t3);
    var body := [a0, a1, a2, a3];
    PreorderOfBodyPage(body);
    HrefsAfter(PageFrame(body), PreorderAll(body));
    PreorderAllFour(a0, a1, a2, a3);
    HrefsFour(Preorder(a0), Preorder(a1), Preorder(a2), Preorder(a3));
    HrefsOfAnchor(h0, t0);
    HrefsOfAnchor(h1, t1);
    HrefsOfAnchor(h2, t2);
    HrefsOfAnchor(h3, t3);
  }

  /** The page of the link test collects its four `href` values in document order. */
  lemma HrefsOfLinksPage()
    ensures Hrefs(Preorder(LinksPage)) == TestLinks
  {
    HrefsOfFourAnchorPage(TestLinks[0], TestLinks[1], TestLinks[2], TestLinks[3],
                          "External Link", "Internal Link", "Internal Link 2", "Broken Link");
  }

  /**
   * The link test: the page counted against "http://internal-site.com" has
   * one internal, two external (the relative "/internal" has no scheme and
   * is skipped) and one inaccessible link.
   */
  lemma LinksOfTestPage(parseUrl: string -> Option<Url>, head: string -> Option<int>)
    requires TestOracles(parseUrl, head)
    ensures LinksOf("http://internal-site.com", Some(LinksPage), parseUrl, head) == LinkCounts(1, 2, 1)
  {
    HrefsOfLinksPage();
    TallyOfTestLinks(parseUrl, head);
  }

  /** Four links are tallied one after another. */
  lemma TallyLinksFour(links: seq<string>, baseHost: string, parseUrl: string -> Option<Url>, head: string -> Option<int>)
    requires |links| == 4
    ensures TallyLinks(links, baseHost, parseUrl, head)
            == LinkContribution(links[0], baseHost, parseUrl, head)
                 .Plus(LinkContribution(links[1], baseHost, parseUrl, head))
                 .Plus(LinkContribution(links[2], baseHost, parseUrl, head))
                 .Plus(LinkContribution(links[3], baseHost, parseUrl, head))
  {
    var f := l => LinkContribution(l, baseHost, parseUrl, head);
    assert links == [links[0], links[1], links[2], links[3]];
    TallyFour(links[0], links[1], links[2], links[3], f);
  }

  /** A page without a `title` element has the empty title. */
  lemma TitleOfUntitledPage()
    ensures TitleOf(Some(Page([], []))) == ""
  {
    PreorderOfPage([], []);
    TrimSpaceOf("", [], "", []);
  }

  /** The text a doctype body lower-cases to. */
  lemma LowerOf(upper: string, lower: string)
    requires |upper| == |lower|
    requires forall i :: 0 <= i < |upper| ==> LowerChar(upper[i]) == lower[i]
    ensures ToLower(upper) == lower
  {
  }

  /**
   * A declaration `<!DOCTYPE` + one space + a body without `>` + `>` at the
   * start of a page is classified by that body.
   */
  lemma VersionOfLeadingDoctype(g: string, rest: string)
    requires |g| >= 1 && '>' !in g
    ensures DetectHTMLVersion("<!DOCTYPE " + g + ">" + rest) == VersionOfCapture(g)
  {
    var s := "<!DOCTYPE " + g + ">" + rest;
    assert s[0..9] == "<!DOCTYPE";
    assert ToLower("<!DOCTYPE") == DoctypeRegex.Keyword;
    assert s[9..9 + |g| + 2] == " " + g + ">";
    assert DoctypeRegex.IsMatch(s, 0, " ", g);
    DoctypeRegex.MatchAtComplete(s, 0, " ", g);
    assert DoctypeRegex.DoctypeCapture(s) == DoctypeRegex.MatchAt(s, 0);
  }

  /** The public identifier of HTML 4.01 names HTML 4.01 and not HTML 2.0. */
  lemma ClassifyHtml401Id()
    ensures ClassifyDoctype(Html401Id) == "HTML 4.01"
  {
    assert !OccursAt(Html401Id, Html20Id, 0) by { assert Html401Id[30] != Html20Id[30]; }
    assert !OccursAt(Html401Id, Html20Id, 1) by { assert Html401Id[1] != Html20Id[0]; }
    assert OccursAt(Html401Id, Html401Id, 0);
  }

  /** The pieces of the public identifiers as the version test writes them, and lower-cased. */
  lemma LowerHtml() ensures ToLower("HTML") == "html" {}
  lemma LowerPublic() ensures ToLower(" PUBLIC ") == " public " {}
  lemma LowerDtd() ensures ToLower("\"-//W3C//DTD ") == "\"-//w3c//dtd " {}
  lemma Lower401() ensures ToLower(" 4.01//EN\"") == " 4.01//en\"" {}
  lemma Lower32() ensures ToLower(" 3.2 Final//EN\"") == " 3.2 final//en\"" {}

  /**
   * A doctype body `HTML` + `public` + `"-//W3C//DTD HTML` + `version`, where
   * `public` lower-cases to ` public `, lower-cases to
   * `html public "-//w3c//dtd html` + the lower-cased `version`.
   */
  lemma LowerPublicId(public: string, version: string)
    requires ToLower(public) == " public "
    ensures ToLower("HTML" + public + "\"-//W3C//DTD " + "HTML" + version)
            == "html" + " public " + "\"-//w3c//dtd " + "html" + ToLower(version)
  {
    var p1, p3 := "HTML", "\"-//W3C//DTD ";
    ToLowerAppend(p1 + public + p3 + p1, version);
    ToLowerAppend(p1 + public + p3, p1);
    ToLowerAppend(p1 + public, p3);
    ToLowerAppend(p1, public);
    LowerHtml();
    LowerDtd();
  }

  /** The body of the HTML 4.01 declaration of the version test. */
  const Html401Body: string := "HTML PUBLIC \"-//W3C//DTD HTML 4.01//EN\""

  lemma SplitHtml401Body()
    ensures Html401Body == "HTML" + " PUBLIC " + "\"-//W3C//DTD " + "HTML" + " 4.01//EN\""
  {
  }

  lemma JoinHtml401Id()
    ensures "html" + " public " + "\"-//w3c//dtd " + "html" + " 4.01//en\"" == Html401Id
  {
  }

  lemma LowerHtml401Body()
    ensures ToLower(Html401Body) == Html401Id
  {
    SplitHtml401Body();
    LowerPublic();
    LowerPublicId(" PUBLIC ", " 4.01//EN\"");
    Lower401();
    JoinHtml401Id();
  }

  lemma TrimHtml401Body()
    ensures TrimSpace(Html401Body) == Html401Body
  {
    TrimSpaceOf(Html401Body, [], Html401Body, []);
  }

  /** `<!DOCTYPE HTML PUBLIC "-//W3C//DTD HTML 4.01//EN">` is HTML 4.01. */
  lemma VersionOfHtml401Doctype()
    ensures DetectHTMLVersion("<!DOCTYPE " + Html401Body + ">") == "HTML 4.01"
  {
    assert "<!DOCTYPE " + Html401Body + ">" + "" == "<!DOCTYPE " + Html401Body + ">";
    VersionOfLeadingDoctype(Html401Body, "");
    TrimHtml401Body();
    LowerHtml401Body();
    ClassifyHtml401Id();
  }

  /** The public identifier of HTML 3.2 Final names HTML 3.2 and not HTML 2.0. */
  lemma ClassifyHtml32Id()
    ensures ClassifyDoctype(Html32Id) == "HTML 3.2"
  {
    assert !OccursAt(Html32Id, Html20Id, 0) by { assert Html32Id[30] != Html20Id[30]; }
    forall i | 1 <= i <= |Html32Id| - |Html20Id| ensures !OccursAt(Html32Id, Html20Id, i) {
      assert Html32Id[i] != Html20Id[0];
    }
    assert OccursAt(Html32Id, Html32Id, 0);
  }

  /** The body of the HTML 3.2 declaration of the version test. */
  const Html32Body: string := "HTML PUBLIC \"-//W3C//DTD HTML 3.2 Final//EN\""

  lemma SplitHtml32Body()
    ensures Html32Body == "HTML" + " PUBLIC " + "\"-//W3C//DTD " + "HTML" + " 3.2 Final//EN\""
  {
  }

  lemma JoinHtml32Id()
    ensures "html" + " public " + "\"-//w3c//dtd " + "html" + " 3.2 final//en\"" == Html32Id
  {
  }

  lemma LowerHtml32Body()
    ensures ToLower(Html32Body) == Html32Id
  {
    SplitHtml32Body();
    LowerPublic();
    LowerPublicId(" PUBLIC ", " 3.2 Final//EN\"");
    Lower32();
    JoinHtml32Id();
  }

  lemma TrimHtml32Body()
    ensures TrimSpace(Html32Body) == Html32Body
  {
    TrimSpaceOf(Html32Body, [], Html32Body, []);
  }

  /** `<!DOCTYPE HTML PUBLIC "-//W3C//DTD HTML 3.2 Final//EN">` is HTML 3.2. */
  lemma VersionOfHtml32Doctype()
    ensures DetectHTMLVersion("<!DOCTYPE " + Html32Body + ">") == "HTML 3.2"
  {
    assert "<!DOCTYPE " + Html32Body + ">" + "" == "<!DOCTYPE " + Html32Body + ">";
    VersionOfLeadingDoctype(Html32Body, "");
    TrimHtml32Body();
    LowerHtml32Body();
    ClassifyHtml32Id();
  }

  /** A page that lacks one of the characters of `type="password"` has no login form. */
  lemma NoLoginFormWithout(s: string, c: char)
    requires c in PasswordAttr && c !in s
    ensures !ContainsLoginForm(s)
  {
    if ContainsLoginForm(s) {
      DetectionNeedsEveryChar(s);
    }
  }

  /** The page of the login-form test without a password input. */
  const TextInputPage: string := "<html><body><form>" + "<input type=\"text\">" + "</form></body></html>"

  lemma TextInputPageHasNoW()
    ensures 'w' !in TextInputPage
  {
    assert 'w' !in "<html><body><form>";
    assert 'w' !in "<input type=\"text\">";
    assert 'w' !in "</form></body></html>";
  }

  /** A page with a text input only has no login form: it has no `w`. */
  lemma NoLoginFormWithTextInput()
    ensures !ContainsLoginForm(TextInputPage)
  {
    TextInputPageHasNoW();
    NoLoginFormWithout(TextInputPage, 'w');
  }

  /** Single quotes around `password` are not detected: the page has no `"`. */
  lemma NoLoginFormWithSingleQuotes()
    ensures !ContainsLoginForm("<input type='password'>")
  {
    NoLoginFormWithout("<input type='password'>", '"');
  }

  /** An upper-case attribute name is not detected: the page has no lower-case `y`. */
  lemma NoLoginFormWithUpperCaseType()
    ensures !ContainsLoginForm("<input TYPE=\"password\">")
  {
    NoLoginFormWithout("<input TYPE=\"password\">", 'y');
  }

  /**
   * `PUBL\U{0130}C`, with a capital I with dot above, lower-cases to `public`
   * as `unicode.ToLower` maps that letter to `i`.
   */
  lemma LowerDottedPublic()
    ensures ToLower(" PUBL\U{0130}C ") == " public "
  {
  }

  /** An HTML 4.01 doctype body that spells `PUBLIC` with a dotted capital I. */
  const DottedHtml401Body: string := "HTML PUBL\U{0130}C \"-//W3C//DTD HTML 4.01//EN\""

  lemma SplitDottedHtml401Body()
    ensures DottedHtml401Body == "HTML" + " PUBL\U{0130}C " + "\"-//W3C//DTD " + "HTML" + " 4.01//EN\""
  {
  }

  lemma LowerDottedHtml401Body()
    ensures ToLower(DottedHtml401Body) == Html401Id
  {
    SplitDottedHtml401Body();
    LowerDottedPublic();
    LowerPublicId(" PUBL\U{0130}C ", " 4.01//EN\"");
    Lower401();
    JoinHtml401Id();
  }

  lemma TrimDottedHtml401Body()
    ensures TrimSpace(DottedHtml401Body) == DottedHtml401Body
  {
    TrimSpaceOf(DottedHtml401Body, [], DottedHtml401Body, []);
  }

  /**
   * The declaration with `PUBL\U{0130}C` is HTML 4.01 too, because
   * lower-casing turns its body into the public identifier.
   */
  lemma VersionOfDottedHtml401Doctype()
    ensures DetectHTMLVersion("<!DOCTYPE " + DottedHtml401Body + ">") == "HTML 4.01"
  {
    assert "<!DOCTYPE " + DottedHtml401Body + ">" + "" == "<!DOCTYPE " + DottedHtml401Body + ">";
    VersionOfLeadingDoctype(DottedHtml401Body, "");
    TrimDottedHtml401Body();
    LowerDottedHtml401Body();
    ClassifyHtml401Id();
  }
}
