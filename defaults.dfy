/**
 * `BlogrollLinkParser` of defaults.py: while an HTML page is parsed it
 * records every `<a>` or `<link>` tag that points to a blogroll, and
 * `get_link` then picks the one whose media type is the most preferred
 * OPML type.  The HTML tokeniser is not modelled: the parser is driven by
 * its `handle_starttag` calls, one per start tag, with the tag name and the
 * attribute list as the tokeniser reports them.
 */
module Defaults {
  import opened Wrappers
  import Strings

  /** One attribute as the tokeniser reports it: a name and an optional value. */
  datatype Attribute = Attribute(name: string, value: Option<string>)

  /** A recorded blogroll link: `(href, type, title)`. */
  datatype Blogroll = Blogroll(href: string, mimetype: Option<string>, title: Option<string>)

  /**
   * `dict(attrs).get(name)`: the value of the last attribute called
   * `name`; `None` when there is none or when its value is `None`.
   */
  function Get(attrs: seq<Attribute>, name: string): (r: Option<string>)
    ensures r.Some? ==> Attribute(name, r) in attrs
    ensures (forall i :: 0 <= i < |attrs| ==> attrs[i].name != name) ==> r.None?
  {
    if attrs == [] then None
    else if attrs[|attrs| - 1].name == name then attrs[|attrs| - 1].value
    else
      var r := Get(attrs[..|attrs| - 1], name);
      assert forall a :: a in attrs[..|attrs| - 1] ==> a in attrs;
      r
  }

  /** A later attribute of the same name overrides an earlier one, as in a dict. */
  lemma {:induction false} GetLastWins(attrs: seq<Attribute>, name: string, value: Option<string>, more: seq<Attribute>)
    requires forall i :: 0 <= i < |more| ==> more[i].name != name
    ensures Get(attrs + [Attribute(name, value)] + more, name) == value
    decreases |more|
  {
    if more != [] {
      var s := attrs + [Attribute(name, value)] + more;
      assert s[..|s| - 1] == attrs + [Attribute(name, value)] + more[..|more| - 1];
      GetLastWins(attrs, name, value, more[..|more| - 1]);
    }
  }

  /** The preference score of each supported media type. */
  const SupportedTypes: map<string, nat> := map[
    "application/xml+opml" := 15,
    "text/opml" := 10, "text/x-opml" := 10,
    "application/xml" := 5, "text/xml" := 5
  ]

  /** `SUPPORTED_TYPES.get(type, 0)`: unknown and missing types score 0. */
  function Score(mimetype: Option<string>): (r: nat)
    ensures r <= 15
    ensures r == 15 <==> mimetype == Some("application/xml+opml")
    ensures mimetype.None? || mimetype.value !in SupportedTypes ==> r == 0
  {
    if mimetype.Some? && mimetype.value in SupportedTypes then SupportedTypes[mimetype.value] else 0
  }

  /**
   * What `handle_starttag` records for one tag: a blogroll link for an `a`
   * or `link` tag whose `rel` is `blogroll` and whose `href` is not empty,
   * nothing for any other tag.
   */
  function Recorded(tag: string, attrs: seq<Attribute>): (r: Option<Blogroll>)
    ensures r.Some? <==> (tag == "a" || tag == "link") && Get(attrs, "rel") == Some("blogroll")
                         && Get(attrs, "href").Some? && Get(attrs, "href").value != ""
    ensures r.Some? ==> r.value.href != "" && Attribute("href", Some(r.value.href)) in attrs
    ensures r.Some? ==> r.value.mimetype == Get(attrs, "type") && r.value.title == Get(attrs, "title")
  {
    if tag != "a" && tag != "link" then None
    else
      var href := Get(attrs, "href");
      if Get(attrs, "rel") != Some("blogroll") || href.None? || href.value == "" then None
      else Some(Blogroll(href.value, Get(attrs, "type"), Get(attrs, "title")))
  }

  /**
   * The index `max(links, key=score)` returns: a link of the highest
   * score, the first such one when several tie.
   */
  function Best(links: seq<Blogroll>): (k: nat)
    requires links != []
    ensures k < |links|
    ensures forall i :: 0 <= i < |links| ==> Score(links[i].mimetype) <= Score(links[k].mimetype)
    ensures forall i :: 0 <= i < k ==> Score(links[i].mimetype) < Score(links[k].mimetype)
  {
    if |links| == 1 then 0
    else
      var k := Best(links[..|links| - 1]);
      assert forall i :: 0 <= i < |links| - 1 ==> links[i] == links[..|links| - 1][i];
      if Score(links[|links| - 1].mimetype) > Score(links[k].mimetype) then |links| - 1 else k
  }

  /** `title and title.strip()`: a missing title stays missing. */
  function StrippedTitle(title: Option<string>): (r: Option<string>)
    ensures r.None? <==> title.None?
    ensures r.Some? ==> r.value == Strings.Strip(title.value)
  {
    match title
    case None => None
    case Some(t) => Some(Strings.Strip(t))
  }

  /** `get_link`, on the recorded links: nothing when none was recorded. */
  function LinkOf(links: seq<Blogroll>): (r: Option<(string, Option<string>)>)
    ensures r.None? <==> links == []
    ensures r.Some? ==> exists k :: 0 <= k < |links| && r.value == (links[k].href, StrippedTitle(links[k].title))
  {
    if links == [] then None
    else
      var k := Best(links);
      Some((links[k].href, StrippedTitle(links[k].title)))
  }

  /** An OPML link is preferred to a generic XML link recorded before it. */
  lemma OpmlBeatsXml(xml: string, opml: string)
    ensures LinkOf([Blogroll(xml, Some("application/xml"), None), Blogroll(opml, Some("text/x-opml"), None)])
            == Some((opml, None))
  {
    var links := [Blogroll(xml, Some("application/xml"), None), Blogroll(opml, Some("text/x-opml"), None)];
    assert Score(links[0].mimetype) == 5 && Score(links[1].mimetype) == 10;
  }

  /** Of two links of the same score the first one wins. */
  lemma {:induction false} FirstWinsTie(a: Blogroll, b: Blogroll)
    requires Score(a.mimetype) == Score(b.mimetype)
    ensures LinkOf([a, b]) == Some((a.href, StrippedTitle(a.title)))
  {
    assert Best([a, b]) == 0 by {
      assert [a, b][..1] == [a];
    }
  }

  class BlogrollLinkParser {
    /** The blogroll links recorded so far, in document order. */
    var links: seq<Blogroll>

    /** Every recorded link has a non-empty `href`. */
    predicate Valid()
      reads this
    {
      forall i :: 0 <= i < |links| ==> links[i].href != ""
    }

    constructor()
      ensures links == [] && Valid()
    {
      links := [];
    }

    /** `handle_starttag(tag, attrs)`: records the tag's blogroll link, if it is one. */
    method HandleStartTag(tag: string, attrs: seq<Attribute>)
      requires Valid()
      modifies this
      ensures Valid()
      ensures Recorded(tag, attrs).None? ==> links == old(links)
      ensures Recorded(tag, attrs).Some? ==> links == old(links) + [Recorded(tag, attrs).value]
    {
      if tag != "a" && tag != "link" {
        return;
      }
      var rel := Get(attrs, "rel");
      var href := Get(attrs, "href");
      if rel != Some("blogroll") || href.None? || href.value == "" {
        return;
      }
      links := links + [Blogroll(href.value, Get(attrs, "type"), Get(attrs, "title"))];
    }

    /** `get_link()`: the preferred blogroll link and its stripped title, if any was recorded. */
    function GetLink(): (r: Option<(string, Option<string>)>)
      reads this
      requires Valid()
      ensures r.None? <==> links == []
      ensures r.Some? ==> r.value.0 != ""
      ensures r == LinkOf(links)
    {
      LinkOf(links)
    }
  }

  /** The attributes of the test page's `<link rel="blogroll">` tag. */
  const TestLinkAttrs := [Attribute("rel", Some("blogroll")), Attribute("type", Some("text/x-opml")),
                          Attribute("title", Some("Earth Reader Feeds")), Attribute("href", Some("feeds.xml"))]

  /** That tag is recorded with its `href`, type and title. */
  lemma TestLinkRecorded()
    ensures Recorded("link", TestLinkAttrs) == Some(Blogroll("feeds.xml", Some("text/x-opml"), Some("Earth Reader Feeds")))
  {
    var attrs := TestLinkAttrs;
    assert attrs == [] + [attrs[0]] + attrs[1..];
    GetLastWins([], "rel", Some("blogroll"), attrs[1..]);
    assert attrs == attrs[..1] + [attrs[1]] + attrs[2..];
    GetLastWins(attrs[..1], "type", Some("text/x-opml"), attrs[2..]);
    assert attrs == attrs[..2] + [attrs[2]] + attrs[3..];
    GetLastWins(attrs[..2], "title", Some("Earth Reader Feeds"), attrs[3..]);
    assert Get(attrs, "href") == Some("feeds.xml");
  }

  /**
   * The page of the project's own test that links its blogroll, given as
   * the start tags the tokeniser reports for it: the `<link rel="blogroll">`
   * yields its `href` and its title.
   */
  method BlogrollPageExample() returns (found: Option<(string, Option<string>)>)
    ensures found == Some(("feeds.xml", Some("Earth Reader Feeds")))
  {
    var parser := new BlogrollLinkParser();
    parser.HandleStartTag("html", []);
    parser.HandleStartTag("head", []);
    parser.HandleStartTag("meta", [Attribute("charset", Some("utf-8"))]);
    parser.HandleStartTag("title", []);
    TestLinkRecorded();
    parser.HandleStartTag("link", TestLinkAttrs);
    parser.HandleStartTag("body", []);
    parser.HandleStartTag("h1", []);
    Strings.StripUnchanged("Earth Reader Feeds");
    found := parser.GetLink();
  }

  /** The test's page without a blogroll link: `get_link` finds nothing. */
  method PlainPageExample() returns (missing: Option<(string, Option<string>)>)
    ensures missing == None
  {
    var parser := new BlogrollLinkParser();
    parser.HandleStartTag("html", []);
    parser.HandleStartTag("head", []);
    parser.HandleStartTag("meta", [Attribute("charset", Some("utf-8"))]);
    parser.HandleStartTag("title", []);
    parser.HandleStartTag("body", []);
    parser.HandleStartTag("h1", []);
    missing := parser.GetLink();
  }
}
