/**
 * The feed category tree of feedlist.py (and of its older twin feed.py):
 * `Feed` and `FeedCategory` objects, the category's list operations with
 * their duplicate and cycle checks, and `FeedList`, which interns one
 * `Feed` object per `(type, title, xml_url)` key and converts between
 * OPML `outline` elements and the tree.
 *
 * Categories hold references, and `in` on their children compares by
 * identity, so both classes are Dafny classes and a child is a `Tree`
 * holding a reference.  A category graph may contain cycles (through
 * `__setitem__`), and Python then stops the recursive walks with
 * `RecursionError`; the walks here take `depth`, the number of nested
 * calls Python still allows, and fail with `RecursionError` when it runs
 * out.
 */
module FeedLists {
  import opened Wrappers

  /** Python's `a or b` on optional text: `a` unless it is `None` or empty. */
  function Or(a: Option<string>, b: Option<string>): (r: Option<string>)
    ensures r == a || r == b
    ensures r.Some? && r.value != "" ==> r == a || a.None? || a.value == ""
    ensures a.Some? && a.value != "" ==> r == a
  {
    if a.Some? && a.value != "" then a else b
  }

  /** `Or` is idempotent in its first argument: `(a or b) or b == a or b`. */
  lemma OrAgain(a: Option<string>, b: Option<string>)
    ensures Or(Or(a, b), b) == Or(a, b)
  {
  }

  // ---------------------------------------------------------------------
  // Python list indexing

  /** Where `list.insert(index, x)` puts `x` in a list of length `n`. */
  function InsertPosition(n: nat, index: int): (p: nat)
    ensures p <= n
    ensures 0 <= index <= n ==> p == index
    ensures -(n as int) <= index < 0 ==> p == n + index
    ensures index < -(n as int) ==> p == 0
    ensures index > n ==> p == n
  {
    if index < 0 then (if index + n < 0 then 0 else index + n)
    else if index > n then n
    else index
  }

  /** `list.insert(index, x)`: never fails, clamps the index to the list. */
  function ListInsert<T>(s: seq<T>, index: int, x: T): (r: seq<T>)
    ensures |r| == |s| + 1
    ensures r[InsertPosition(|s|, index)] == x
    ensures forall k :: 0 <= k < InsertPosition(|s|, index) ==> r[k] == s[k]
    ensures forall k :: InsertPosition(|s|, index) < k < |r| ==> r[k] == s[k - 1]
  {
    var p := InsertPosition(|s|, index);
    s[..p] + [x] + s[p..]
  }

  /** Inserting adds exactly one element, and `append` is insertion at the end. */
  lemma ListInsertContents<T>(s: seq<T>, index: int, x: T)
    ensures multiset(ListInsert(s, index, x)) == multiset(s) + multiset{x}
    ensures ListInsert(s, |s|, x) == s + [x]
  {
    var p := InsertPosition(|s|, index);
    assert s == s[..p] + s[p..];
    assert s[..|s|] == s;
  }

  /**
   * The element an item index names in a list of length `n`: negative
   * indexes count from the end, anything outside `-n .. n-1` is
   * `IndexError`.
   */
  function ItemPosition(n: nat, index: int): (r: Option<nat>)
    ensures r.Some? <==> -(n as int) <= index < n
    ensures r.Some? ==> r.value < n && (r.value == index || r.value == index + n)
  {
    if 0 <= index < n then Some(index)
    else if -(n as int) <= index < 0 then Some(index + n)
    else None
  }

  /** `del s[index]` on a valid position. */
  function Remove<T>(s: seq<T>, p: nat): (r: seq<T>)
    requires p < |s|
    ensures |r| == |s| - 1
    ensures forall k :: 0 <= k < p ==> r[k] == s[k]
    ensures forall k :: p <= k < |r| ==> r[k] == s[k + 1]
    ensures multiset(r) + multiset{s[p]} == multiset(s)
  {
    assert s == s[..p] + [s[p]] + s[p + 1..];
    s[..p] + s[p + 1..]
  }

  /** Deleting what was just inserted gives the list back. */
  lemma RemoveInserted<T>(s: seq<T>, index: int, x: T)
    ensures Remove(ListInsert(s, index, x), InsertPosition(|s|, index)) == s
  {
  }

  // ---------------------------------------------------------------------
  // The tree

  /** `Feed`: a subscription; `FeedTree.type` is always `'feed'`. */
  class Feed {
    var rsstype: Option<string>
    var title: Option<string>
    var xmlUrl: Option<string>
    var htmlUrl: Option<string>
    var text: Option<string>

    /** `Feed.__init__`: `text` defaults to the title. */
    constructor(rsstype: Option<string>, title: Option<string>, xmlUrl: Option<string>,
                htmlUrl: Option<string>, text: Option<string>)
      ensures this.rsstype == rsstype && this.title == title
      ensures this.xmlUrl == xmlUrl && this.htmlUrl == htmlUrl
      ensures this.text == Or(text, title)
    {
      this.rsstype := rsstype;
      this.title := title;
      this.xmlUrl := xmlUrl;
      this.htmlUrl := htmlUrl;
      this.text := Or(text, title);
    }
  }

  /** A child of a category: a feed or a category, held by reference. */
  datatype Tree = FeedLeaf(feed: Feed) | CategoryNode(category: FeedCategory)

  /**
   * `key` is a direct child of `c` or of a category reachable from `c`,
   * looking no more than `depth - 1` category levels down.
   */
  ghost predicate Reaches(c: FeedCategory, key: Tree, depth: nat)
    reads *
    decreases depth
  {
    depth > 0 &&
    (key in c.children ||
     exists j :: 0 <= j < |c.children| && c.children[j].CategoryNode? &&
       Reaches(c.children[j].category, key, depth - 1))
  }

  /** Every chain of categories below `c` is shorter than `depth`. */
  ghost predicate Bounded(c: FeedCategory, depth: nat)
    reads *
    decreases depth
  {
    depth > 0 &&
    forall j :: 0 <= j < |c.children| && c.children[j].CategoryNode? ==>
      Bounded(c.children[j].category, depth - 1)
  }

  /** A bound that holds for some depth holds for every larger one. */
  lemma {:induction false} BoundedUp(c: FeedCategory, d: nat, e: nat)
    requires Bounded(c, d) && d <= e
    ensures Bounded(c, e)
    decreases d
  {
    forall j | 0 <= j < |c.children| && c.children[j].CategoryNode?
      ensures Bounded(c.children[j].category, e - 1)
    {
      BoundedUp(c.children[j].category, d - 1, e - 1);
    }
  }

  /** A category reachable from a bounded one is bounded by one level less. */
  lemma {:induction false} BoundedBelow(x: FeedCategory, c: FeedCategory, k: nat, m: nat)
    requires Reaches(x, CategoryNode(c), k) && Bounded(x, m)
    ensures m >= 2 && Bounded(c, m - 1)
    decreases k
  {
    if CategoryNode(c) in x.children {
      var j :| 0 <= j < |x.children| && x.children[j] == CategoryNode(c);
      assert Bounded(c, m - 1);
    } else {
      var j :| 0 <= j < |x.children| && x.children[j].CategoryNode? &&
        Reaches(x.children[j].category, CategoryNode(c), k - 1);
      BoundedBelow(x.children[j].category, c, k - 1, m - 1);
      BoundedUp(c, m - 2, m - 1);
    }
  }

  /**
   * A category whose chains are bounded is not inside itself: a bounded
   * tree has no cycle through its root.
   */
  lemma {:induction false} BoundedHasNoCycle(c: FeedCategory, m: nat, k: nat)
    requires Bounded(c, m)
    ensures !Reaches(c, CategoryNode(c), k)
    decreases m
  {
    if Reaches(c, CategoryNode(c), k) {
      BoundedBelow(c, c, k, m);
      BoundedHasNoCycle(c, m - 1, k);
    }
  }

  /** `FeedCategory`: an ordered list of children, plus the feed urls seen. */
  class FeedCategory {
    var title: Option<string>
    var text: Option<string>
    var children: seq<Tree>
    /** The `xml_url` of every feed `insert` has accepted. */
    var urls: seq<Option<string>>

    /** `FeedCategory.__init__`: `text` defaults to the title; no children. */
    constructor(title: Option<string>, text: Option<string>)
      ensures this.title == title && this.text == Or(text, title)
      ensures children == [] && urls == []
    {
      this.title := title;
      this.text := Or(text, title);
      children := [];
      urls := [];
    }

    /**
     * `__contains__`: `TypeError` for a key that is not a `FeedTree`;
     * otherwise true iff the key is a direct child or lies in a category
     * below.  A walk deeper than `depth` levels is `RecursionError`.
     */
    method Contains(key: Arg<Tree>, depth: nat) returns (r: Result<bool>)
      ensures depth == 0 ==> r == Err(RecursionError)
      ensures depth > 0 && key.OtherType? ==> r == Err(TypeError)
      ensures r.Err? ==> r.error == RecursionError || (key.OtherType? && r.error == TypeError)
      ensures r.Ok? ==> key.Instance? && (r.value <==> Reaches(this, key.value, depth))
      ensures key.Instance? && Bounded(this, depth) ==> r.Ok?
      decreases depth
    {
      if depth == 0 {
        return Err(RecursionError);
      }
      if key.OtherType? {
        return Err(TypeError);
      }
      var k := key.value;
      if k in children {
        return Ok(true);
      }
      var i := 0;
      while i < |children|
        invariant 0 <= i <= |children|
        invariant forall j :: 0 <= j < i && children[j].CategoryNode? ==>
          !Reaches(children[j].category, k, depth - 1)
      {
        var child := children[i];
        if child.CategoryNode? {
          var sub := child.category.Contains(key, depth - 1);
          if sub.Err? {
            return sub;
          }
          if sub.value {
            return Ok(true);
          }
        }
        i := i + 1;
      }
      return Ok(false);
    }

    /**
     * `insert`: a value that is not a `FeedTree` is `TypeError`.  A feed
     * whose url this category has already accepted is `AlreadyExist`;
     * otherwise its url is recorded.  A category already somewhere below,
     * a category that has this one below it, and this category itself are
     * each `AlreadyExist`.  Whatever passes is inserted at `index`.
     */
    method Insert(index: int, value: Arg<Tree>, depth: nat) returns (r: Result<()>)
      modifies this
      ensures title == old(title) && text == old(text)
      ensures value.OtherType? ==> r == Err(TypeError)
      ensures r.Err? ==> children == old(children) && urls == old(urls)
      ensures r.Ok? ==> value.Instance? && children == ListInsert(old(children), index, value.value)
      ensures value.Instance? && value.value.FeedLeaf? ==>
        (r.Ok? <==> value.value.feed.xmlUrl !in old(urls)) &&
        (r.Ok? ==> urls == old(urls) + [value.value.feed.xmlUrl]) &&
        (r.Err? ==> r.error == AlreadyExist)
      ensures value.Instance? && value.value.CategoryNode? ==>
        (r.Ok? ==> urls == old(urls) &&
                   value.value.category != this &&
                   !old(Reaches(this, value.value, depth)) &&
                   !old(Reaches(value.value.category, CategoryNode(this), depth))) &&
        (r.Err? ==> r.error == AlreadyExist || r.error == RecursionError) &&
        (r == Err(AlreadyExist) ==> value.value.category == this ||
                                    old(Reaches(this, value.value, depth)) ||
                                    old(Reaches(value.value.category, CategoryNode(this), depth)))
      ensures value.Instance? && value.value.CategoryNode? &&
              old(Bounded(this, depth)) && old(Bounded(value.value.category, depth)) ==>
        (r.Ok? <==> value.value.category != this &&
                    !old(Reaches(this, value.value, depth)) &&
                    !old(Reaches(value.value.category, CategoryNode(this), depth)))
    {
      if value.OtherType? {
        return Err(TypeError);
      }
      var v := value.value;
      match v {
        case FeedLeaf(f) =>
          if f.xmlUrl in urls {
            return Err(AlreadyExist);
          }
          urls := urls + [f.xmlUrl];
        case CategoryNode(c) =>
          var below := Contains(value, depth);
          if below.Err? {
            return Err(below.error);
          }
          if below.value {
            return Err(AlreadyExist);
          }
          var above := c.Contains(Instance(CategoryNode(this)), depth);
          if above.Err? {
            return Err(above.error);
          }
          if above.value {
            return Err(AlreadyExist);
          }
          if c == this {
            return Err(AlreadyExist);
          }
      }
      children := ListInsert(children, index, v);
      return Ok(());
    }

    /**
     * `__setitem__`: `TypeError` for a value that is not a `FeedTree`,
     * `IndexError` for an index outside the list; otherwise the child is
     * replaced.  No duplicate or cycle check, and `urls` is left alone.
     */
    method SetItem(index: int, value: Arg<Tree>) returns (r: Result<()>)
      modifies this
      ensures title == old(title) && text == old(text) && urls == old(urls)
      ensures value.OtherType? ==> r == Err(TypeError)
      ensures value.Instance? && ItemPosition(|old(children)|, index).None? ==> r == Err(IndexError)
      ensures r.Err? ==> children == old(children)
      ensures r.Ok? <==> value.Instance? && ItemPosition(|old(children)|, index).Some?
      ensures r.Ok? ==> children == old(children)[ItemPosition(|old(children)|, index).value := value.value]
    {
      if value.OtherType? {
        return Err(TypeError);
      }
      var p := ItemPosition(|children|, index);
      if p.None? {
        return Err(IndexError);
      }
      children := children[p.value := value.value];
      return Ok(());
    }

    /**
     * `__delitem__`: `IndexError` for an index outside the list; otherwise
     * the child is removed.  `urls` keeps the removed feed's url.
     */
    method DelItem(index: int) returns (r: Result<()>)
      modifies this
      ensures title == old(title) && text == old(text) && urls == old(urls)
      ensures r.Ok? <==> ItemPosition(|old(children)|, index).Some?
      ensures r.Err? ==> r.error == IndexError && children == old(children)
      ensures r.Ok? ==> children == Remove(old(children), ItemPosition(|old(children)|, index).value)
    {
      var p := ItemPosition(|children|, index);
      if p.None? {
        return Err(IndexError);
      }
      children := Remove(children, p.value);
      return Ok(());
    }
  }

  // ---------------------------------------------------------------------
  // Outlines and the feed list

  /** The attributes of an OPML `outline` element that the conversions use. */
  datatype OutlineElement = OutlineElement(
    typ: Option<string>,
    text: Option<string>,
    title: Option<string>,
    xmlUrl: Option<string>,
    htmlUrl: Option<string>,
    children: seq<OutlineElement>)

  /** The data fields of a `Feed` object. */
  datatype FeedData = FeedData(
    rsstype: Option<string>,
    title: Option<string>,
    xmlUrl: Option<string>,
    htmlUrl: Option<string>,
    text: Option<string>)

  function Data(f: Feed): (d: FeedData)
    reads f
    ensures d.rsstype == f.rsstype && d.title == f.title && d.xmlUrl == f.xmlUrl
    ensures d.htmlUrl == f.htmlUrl && d.text == f.text
  {
    FeedData(f.rsstype, f.title, f.xmlUrl, f.htmlUrl, f.text)
  }

  /** The key `all_feeds` is hashed by: the type, the title and the feed url. */
  datatype Key = Key(kind: Option<string>, title: Option<string>, xmlUrl: Option<string>)

  /**
   * The feed a childless outline becomes: its title is the outline's
   * title or else its text, and its text the outline's text or else that
   * title.
   */
  function FeedFields(o: OutlineElement): (d: FeedData)
    ensures d.rsstype == o.typ && d.xmlUrl == o.xmlUrl && d.htmlUrl == o.htmlUrl
    ensures d.title == Or(o.title, o.text)
    ensures d.text == Or(o.text, d.title)
  {
    var title := Or(o.title, o.text);
    FeedData(o.typ, title, o.xmlUrl, o.htmlUrl, Or(o.text, title))
  }

  /** The key a childless outline is interned under. */
  function OutlineKey(o: OutlineElement): (k: Key)
    ensures k == Key(FeedFields(o).rsstype, FeedFields(o).title, FeedFields(o).xmlUrl)
  {
    Key(o.typ, Or(o.title, o.text), o.xmlUrl)
  }

  /** The `outline` element `convert_to_outline` writes for a feed. */
  function FeedOutline(d: FeedData): (o: OutlineElement)
    ensures o.children == [] && o.typ == d.rsstype
    ensures o.text == d.text && o.title == d.title
    ensures o.xmlUrl == d.xmlUrl && o.htmlUrl == d.htmlUrl
  {
    OutlineElement(d.rsstype, d.text, d.title, d.xmlUrl, d.htmlUrl, [])
  }

  /**
   * The outline `convert_to_outline` writes for a tree, read off the
   * heap: a feed's own outline, or a category's outline holding its
   * children's outlines; `None` when the categories nest deeper than
   * `depth`.
   */
  ghost function OutlineOf(t: Tree, depth: nat): Option<OutlineElement>
    reads *
    decreases depth, 0, 0
  {
    match t
    case FeedLeaf(f) => Some(FeedOutline(Data(f)))
    case CategoryNode(c) =>
      if depth == 0 then None
      else match ChildOutlines(c.children, depth - 1)
        case Some(cs) => Some(OutlineElement(Some("category"), c.text, c.title, None, None, cs))
        case None => None
  }

  /** The outlines of a list of children, in order, when each of them has one. */
  ghost function ChildOutlines(ts: seq<Tree>, depth: nat): Option<seq<OutlineElement>>
    reads *
    decreases depth, 1, |ts|
  {
    if ts == [] then Some([])
    else match ChildOutlines(ts[..|ts| - 1], depth)
      case None => None
      case Some(cs) =>
        match OutlineOf(ts[|ts| - 1], depth)
        case None => None
        case Some(x) => Some(cs + [x])
  }

  /** A child without an outline leaves the whole list without one. */
  lemma {:induction false} ChildOutlinesNone(ts: seq<Tree>, k: nat, depth: nat)
    requires k <= |ts| && ChildOutlines(ts[..k], depth) == None
    ensures ChildOutlines(ts, depth) == None
    decreases |ts| - k
  {
    if k < |ts| {
      assert ts[..k + 1][..k] == ts[..k];
      ChildOutlinesNone(ts, k + 1, depth);
    } else {
      assert ts[..k] == ts;
    }
  }

  /** Each child's outline sits at the child's own position. */
  lemma {:induction false} ChildOutlinesSome(ts: seq<Tree>, depth: nat, cs: seq<OutlineElement>)
    requires ChildOutlines(ts, depth) == Some(cs)
    ensures |cs| == |ts| && forall i :: 0 <= i < |ts| ==> OutlineOf(ts[i], depth) == Some(cs[i])
    decreases |ts|
  {
    if ts != [] {
      var front := ts[..|ts| - 1];
      var pre := ChildOutlines(front, depth).value;
      ChildOutlinesSome(front, depth, pre);
      forall i | 0 <= i < |ts| ensures OutlineOf(ts[i], depth) == Some(cs[i]) {
        if i < |ts| - 1 {
          assert ts[i] == front[i];
        }
      }
    }
  }

  /**
   * A category's outline has type `category`, the category's text and
   * title, no urls, and one child outline per child: a feed's own outline
   * for a feed, a `category` outline for a category.
   */
  lemma CategoryOutline(c: FeedCategory, depth: nat)
    requires OutlineOf(CategoryNode(c), depth).Some?
    ensures var o := OutlineOf(CategoryNode(c), depth).value;
      o.typ == Some("category") && o.text == c.text && o.title == c.title &&
      o.xmlUrl.None? && o.htmlUrl.None? && |o.children| == |c.children| &&
      forall i :: 0 <= i < |c.children| ==>
        (c.children[i].FeedLeaf? ==> o.children[i] == FeedOutline(Data(c.children[i].feed))) &&
        (c.children[i].CategoryNode? ==> o.children[i].typ == Some("category"))
  {
    var cs := ChildOutlines(c.children, depth - 1).value;
    ChildOutlinesSome(c.children, depth - 1, cs);
  }

  /** A category whose chains are shorter than `depth` has an outline. */
  lemma {:induction false} BoundedHasOutline(c: FeedCategory, depth: nat)
    requires Bounded(c, depth)
    ensures OutlineOf(CategoryNode(c), depth).Some?
    decreases depth, 0
  {
    BoundedChildrenHaveOutlines(c.children, depth - 1, |c.children|);
    assert c.children[..|c.children|] == c.children;
  }

  lemma {:induction false} BoundedChildrenHaveOutlines(ts: seq<Tree>, depth: nat, k: nat)
    requires k <= |ts|
    requires forall j :: 0 <= j < |ts| && ts[j].CategoryNode? ==> Bounded(ts[j].category, depth)
    ensures ChildOutlines(ts[..k], depth).Some?
    decreases depth, 1, k
  {
    if k > 0 {
      assert ts[..k][..k - 1] == ts[..k - 1];
      BoundedChildrenHaveOutlines(ts, depth, k - 1);
      if ts[k - 1].CategoryNode? {
        BoundedHasOutline(ts[k - 1].category, depth);
      }
    }
  }

  /**
   * Reading a childless outline into a feed and writing it back keeps
   * every attribute except that a missing title is filled in from the
   * text; and writing a feed whose title and text are non-empty and
   * reading it back gives the same feed data.
   */
  lemma FeedOutlineRoundTrip(o: OutlineElement, d: FeedData)
    requires o.children == [] && o.text.Some? && o.text.value != ""
    requires d.title.Some? && d.title.value != "" && d.text.Some? && d.text.value != ""
    ensures FeedOutline(FeedFields(o)) == o.(title := Or(o.title, o.text))
    ensures FeedFields(FeedOutline(d)) == d
  {
  }

  /**
   * The top of what `convert_from_outline` builds for `o`, once `feeds`
   * is the interning map: the interned feed for a childless outline, a
   * category otherwise.
   */
  ghost predicate Converted(o: OutlineElement, t: Tree, feeds: map<Key, Feed>)
  {
    if o.children == [] then OutlineKey(o) in feeds && t == FeedLeaf(feeds[OutlineKey(o)])
    else t.CategoryNode?
  }

  /**
   * What `convert_from_outline` builds for `o`, all the way down, once
   * `feeds` is the interning map: the interned feed for a childless
   * outline; otherwise a category among `cats` titled by the outline's
   * title or else its text, with that as its text too, holding what each
   * child outline was built into, in order.
   */
  ghost predicate Built(o: OutlineElement, t: Tree, feeds: map<Key, Feed>, cats: set<FeedCategory>)
    reads cats
    decreases o
  {
    if o.children == [] then OutlineKey(o) in feeds && t == FeedLeaf(feeds[OutlineKey(o)])
    else
      && t.CategoryNode? && t.category in cats
      && t.category.title == Or(o.title, o.text) && t.category.text == t.category.title
      && |t.category.children| == |o.children|
      && forall i :: 0 <= i < |o.children| ==> Built(o.children[i], t.category.children[i], feeds, cats)
  }

  /** What was built stays built while the map and the set of categories only grow. */
  lemma {:induction false} BuiltKept(o: OutlineElement, t: Tree, feeds1: map<Key, Feed>, feeds2: map<Key, Feed>,
                                     cats1: set<FeedCategory>, cats2: set<FeedCategory>)
    requires Built(o, t, feeds1, cats1) && cats1 <= cats2
    requires forall k :: k in feeds1 ==> k in feeds2 && feeds2[k] == feeds1[k]
    ensures Built(o, t, feeds2, cats2)
    decreases o
  {
    if o.children != [] {
      forall i | 0 <= i < |o.children|
        ensures Built(o.children[i], t.category.children[i], feeds2, cats2)
      {
        BuiltKept(o.children[i], t.category.children[i], feeds1, feeds2, cats1, cats2);
      }
    }
  }

  /** Each of `os` was built into the tree at the same place in `ts`. */
  ghost predicate AllBuilt(os: seq<OutlineElement>, ts: seq<Tree>, feeds: map<Key, Feed>, cats: set<FeedCategory>)
    reads cats
  {
    |ts| == |os| && forall j :: 0 <= j < |os| ==> Built(os[j], ts[j], feeds, cats)
  }

  /** `AllBuilt` survives growth of the map and of the set of categories. */
  lemma AllBuiltKept(os: seq<OutlineElement>, ts: seq<Tree>, feeds1: map<Key, Feed>, feeds2: map<Key, Feed>,
                     cats1: set<FeedCategory>, cats2: set<FeedCategory>)
    requires AllBuilt(os, ts, feeds1, cats1) && cats1 <= cats2
    requires forall k :: k in feeds1 ==> k in feeds2 && feeds2[k] == feeds1[k]
    ensures AllBuilt(os, ts, feeds2, cats2)
  {
    forall j | 0 <= j < |os|
      ensures Built(os[j], ts[j], feeds2, cats2)
    {
      BuiltKept(os[j], ts[j], feeds1, feeds2, cats1, cats2);
    }
  }

  /** One more child built extends `AllBuilt` by one place. */
  lemma AllBuiltSnoc(os: seq<OutlineElement>, ts: seq<Tree>, o: OutlineElement, t: Tree,
                     feeds: map<Key, Feed>, cats: set<FeedCategory>)
    requires AllBuilt(os, ts, feeds, cats) && Built(o, t, feeds, cats)
    ensures AllBuilt(os + [o], ts + [t], feeds, cats)
  {
  }

  /** A category holding what each child outline was built into is built from the parent. */
  lemma BuiltCategory(o: OutlineElement, c: FeedCategory, feeds: map<Key, Feed>, cats: set<FeedCategory>)
    requires o.children != [] && c in cats
    requires c.title == Or(o.title, o.text) && c.text == c.title
    requires AllBuilt(o.children, c.children, feeds, cats)
    ensures Built(o, CategoryNode(c), feeds, cats)
  {
  }

  /** Built is the top level of `Converted` and more. */
  lemma BuiltConverted(o: OutlineElement, t: Tree, feeds: map<Key, Feed>, cats: set<FeedCategory>)
    requires Built(o, t, feeds, cats)
    ensures Converted(o, t, feeds)
    ensures o.children != [] ==> forall i :: 0 <= i < |o.children| ==> Converted(o.children[i], t.category.children[i], feeds)
  {
    if o.children != [] {
      forall i | 0 <= i < |o.children|
        ensures Converted(o.children[i], t.category.children[i], feeds)
      {
        assert Built(o.children[i], t.category.children[i], feeds, cats);
      }
    }
  }

  /**
   * The outline that converting `o` into a tree and back writes: a
   * childless outline as the feed it is read into, an outline with
   * children as a `category` outline titled, and with the text, of the
   * outline's title or else its text, holding the children's outlines.
   */
  function Normal(o: OutlineElement): (r: OutlineElement)
    ensures |r.children| == |o.children|
    ensures o.children == [] ==> r == FeedOutline(FeedFields(o))
    decreases o
  {
    if o.children == [] then FeedOutline(FeedFields(o))
    else
      var name := Or(o.title, o.text);
      OutlineElement(Some("category"), name, name, None, None,
                     seq(|o.children|, i requires 0 <= i < |o.children| => Normal(o.children[i])))
  }

  /** Every leaf of `o` is interned in `feeds` as the feed it was read into. */
  ghost predicate LeavesCarry(o: OutlineElement, feeds: map<Key, Feed>)
    reads feeds.Values
    decreases o
  {
    if o.children == [] then OutlineKey(o) in feeds && Data(feeds[OutlineKey(o)]) == FeedFields(o)
    else forall i :: 0 <= i < |o.children| ==> LeavesCarry(o.children[i], feeds)
  }

  /** The outlines with children in `o` nest fewer than `depth` deep. */
  ghost predicate Within(o: OutlineElement, depth: nat)
    decreases o
  {
    o.children == [] ||
    (depth > 0 && forall i :: 0 <= i < |o.children| ==> Within(o.children[i], depth - 1))
  }

  /**
   * The nested round trip of `convert_from_outline` and
   * `convert_to_outline`: a tree built from `o`, whose leaves still carry
   * what they were read from, is written back as `Normal(o)` at every
   * level, once the depth allows its nesting.
   */
  lemma {:induction false} BuiltOutline(o: OutlineElement, t: Tree, feeds: map<Key, Feed>,
                                        cats: set<FeedCategory>, depth: nat)
    requires Built(o, t, feeds, cats) && LeavesCarry(o, feeds) && Within(o, depth)
    ensures OutlineOf(t, depth) == Some(Normal(o))
    decreases o, 1
  {
    if o.children != [] {
      var c := t.category;
      BuiltChildOutlines(o, c.children, feeds, cats, depth - 1, |o.children|);
      assert c.children[..|o.children|] == c.children;
      assert Normal(o).children[..|o.children|] == Normal(o).children;
    }
  }

  /** The first `k` children built from `o`'s children are written back as their normal outlines. */
  lemma {:induction false} BuiltChildOutlines(o: OutlineElement, ts: seq<Tree>, feeds: map<Key, Feed>,
                                              cats: set<FeedCategory>, depth: nat, k: nat)
    requires k <= |o.children| == |ts|
    requires forall i :: 0 <= i < |o.children| ==>
      Built(o.children[i], ts[i], feeds, cats) && LeavesCarry(o.children[i], feeds) && Within(o.children[i], depth)
    ensures ChildOutlines(ts[..k], depth) == Some(Normal(o).children[..k])
    decreases o, 0, k
  {
    if k > 0 {
      assert ts[..k][..k - 1] == ts[..k - 1];
      BuiltChildOutlines(o, ts, feeds, cats, depth, k - 1);
      BuiltOutline(o.children[k - 1], ts[k - 1], feeds, cats, depth);
      assert Normal(o).children[..k] == Normal(o).children[..k - 1] + [Normal(o.children[k - 1])];
    }
  }

  /**
   * An outline already in the form the conversions write is its own
   * normal outline: leaves with a non-empty title and text, outlines with
   * children typed `category`, with the same non-empty title and text and
   * no urls.
   */
  ghost predicate Canonical(o: OutlineElement)
    decreases o
  {
    && o.title.Some? && o.title.value != "" && o.text.Some? && o.text.value != ""
    && (o.children != [] ==>
          && o.typ == Some("category") && o.text == o.title && o.xmlUrl.None? && o.htmlUrl.None?
          && forall i :: 0 <= i < |o.children| ==> Canonical(o.children[i]))
  }

  lemma {:induction false} CanonicalNormal(o: OutlineElement)
    requires Canonical(o)
    ensures Normal(o) == o
    decreases o
  {
    if o.children != [] {
      forall i | 0 <= i < |o.children| ensures Normal(o).children[i] == o.children[i] {
        CanonicalNormal(o.children[i]);
      }
    }
  }

  /** The `xml_url`s of the childless outlines among `os`, in order: the urls their feeds add to a category's `urls`. */
  function LeafUrls(os: seq<OutlineElement>): (r: seq<Option<string>>)
    ensures forall u :: u in r <==> exists j :: 0 <= j < |os| && os[j].children == [] && os[j].xmlUrl == u
    decreases |os|
  {
    if os == [] then []
    else
      var init := os[..|os| - 1];
      assert forall j :: 0 <= j < |init| ==> init[j] == os[j];
      LeafUrls(init) + (if os[|os| - 1].children == [] then [os[|os| - 1].xmlUrl] else [])
  }

  /** No two childless outlines among `os` share an `xml_url`. */
  ghost predicate DistinctUrls(os: seq<OutlineElement>)
  {
    forall j, k :: 0 <= j < k < |os| && os[j].children == [] && os[k].children == [] ==> os[j].xmlUrl != os[k].xmlUrl
  }

  /**
   * At every level of `o`, no two childless children share an `xml_url`:
   * the only way appending a converted child can be `AlreadyExist`.
   */
  ghost predicate NoSharedUrl(o: OutlineElement)
    decreases o
  {
    DistinctUrls(o.children) && forall i :: 0 <= i < |o.children| ==> NoSharedUrl(o.children[i])
  }

  /**
   * One more child outline: a childless one adds its url to `LeafUrls`;
   * the urls stay distinct exactly when the new url is not among them,
   * and one already among them makes the whole list share a url.
   */
  lemma UrlsStep(os: seq<OutlineElement>, i: nat)
    requires i < |os|
    ensures LeafUrls(os[..i + 1]) == LeafUrls(os[..i]) + (if os[i].children == [] then [os[i].xmlUrl] else [])
    ensures DistinctUrls(os[..i]) && (os[i].children == [] ==> os[i].xmlUrl !in LeafUrls(os[..i])) ==>
            DistinctUrls(os[..i + 1])
    ensures os[i].children == [] && os[i].xmlUrl in LeafUrls(os[..i]) ==> !DistinctUrls(os)
  {
    assert os[..i + 1][..i] == os[..i];
    if os[i].children == [] && os[i].xmlUrl in LeafUrls(os[..i]) {
      var j :| 0 <= j < i && os[..i][j].children == [] && os[..i][j].xmlUrl == os[i].xmlUrl;
      assert os[..i][j] == os[j];
    }
  }

  /** A nesting bound that holds for some depth holds for every larger one. */
  lemma {:induction false} WithinUp(o: OutlineElement, d: nat, e: nat)
    requires Within(o, d) && d <= e
    ensures Within(o, e)
    decreases o
  {
    if o.children != [] {
      forall i | 0 <= i < |o.children| ensures Within(o.children[i], e - 1) {
        WithinUp(o.children[i], d - 1, e - 1);
      }
    }
  }

  /** A category built from an outline nesting fewer than `d` deep is bounded by `d`. */
  lemma {:induction false} BuiltBounded(o: OutlineElement, t: Tree, feeds: map<Key, Feed>,
                                        cats: set<FeedCategory>, d: nat)
    requires Built(o, t, feeds, cats) && t.CategoryNode? && Within(o, d)
    ensures Bounded(t.category, d)
    decreases o
  {
    var c := t.category;
    forall j | 0 <= j < |c.children| && c.children[j].CategoryNode?
      ensures Bounded(c.children[j].category, d - 1)
    {
      assert Built(o.children[j], c.children[j], feeds, cats);
      BuiltBounded(o.children[j], c.children[j], feeds, cats, d - 1);
    }
  }

  /** Every category reachable from a category built from `os` is one of the categories built. */
  lemma {:induction false} ReachesBuilt(os: seq<OutlineElement>, c: FeedCategory, feeds: map<Key, Feed>,
                                        cats: set<FeedCategory>, x: FeedCategory, d: nat)
    requires AllBuilt(os, c.children, feeds, cats) && Reaches(c, CategoryNode(x), d)
    ensures x in cats
    decreases d
  {
    if CategoryNode(x) in c.children {
      var j :| 0 <= j < |c.children| && c.children[j] == CategoryNode(x);
      assert Built(os[j], c.children[j], feeds, cats);
    } else {
      var j :| 0 <= j < |c.children| && c.children[j].CategoryNode? &&
        Reaches(c.children[j].category, CategoryNode(x), d - 1);
      assert Built(os[j], c.children[j], feeds, cats);
      ReachesBuilt(os[j].children, c.children[j].category, feeds, cats, x, d - 1);
    }
  }

  /**
   * Appending the category built from child `i` to the category holding
   * what the earlier children were built into: neither reaches the other,
   * as each holds only categories built for it; and when `o` nests fewer
   * than `depth` deep, both are bounded by `depth`.
   */
  lemma ChildFits(o: OutlineElement, i: nat, res: FeedCategory, t: Tree, feeds1: map<Key, Feed>,
                  feeds2: map<Key, Feed>, cats: set<FeedCategory>, below: set<FeedCategory>, depth: nat)
    requires i < |o.children|
    requires AllBuilt(o.children[..i], res.children, feeds1, cats) && Built(o.children[i], t, feeds2, below)
    requires res !in below && (t.CategoryNode? ==> t.category !in cats)
    ensures t.CategoryNode? ==> !Reaches(res, t, depth) && !Reaches(t.category, CategoryNode(res), depth)
    ensures t.CategoryNode? && Within(o, depth) ==> Bounded(res, depth) && Bounded(t.category, depth)
  {
    if t.CategoryNode? {
      assert AllBuilt(o.children[i].children, t.category.children, feeds2, below);
      if Reaches(res, t, depth) {
        ReachesBuilt(o.children[..i], res, feeds1, cats, t.category, depth);
      }
      if Reaches(t.category, CategoryNode(res), depth) {
        ReachesBuilt(o.children[i].children, t.category, feeds2, below, res, depth);
      }
      if Within(o, depth) {
        forall j | 0 <= j < |res.children| && res.children[j].CategoryNode?
          ensures Bounded(res.children[j].category, depth - 1)
        {
          assert o.children[..i][j] == o.children[j];
          BuiltBounded(o.children[j], res.children[j], feeds1, cats, depth - 1);
        }
        BuiltBounded(o.children[i], t, feeds2, below, depth - 1);
        BoundedUp(t.category, depth - 1, depth);
      }
    }
  }

  /** A child of an outline nesting fewer than `depth` deep nests fewer than `depth` deep too. */
  lemma WithinChild(o: OutlineElement, i: nat, depth: nat)
    requires i < |o.children|
    ensures Within(o, depth) ==> Within(o.children[i], depth)
  {
    if Within(o, depth) {
      WithinUp(o.children[i], depth - 1, depth);
    }
  }

  /** `feeds2` keeps every entry of `feeds1`, and anything new in it is fresh. */
  twostate predicate Grows(feeds1: map<Key, Feed>, new feeds2: map<Key, Feed>)
  {
    (forall k :: k in feeds1 ==> k in feeds2 && feeds2[k] == feeds1[k]) &&
    (forall k :: k in feeds2 && k !in feeds1 ==> fresh(feeds2[k]))
  }

  /** `category.append(tree)`: `insert` at the end, as `convert_from_outline` appends. */
  method Append(category: FeedCategory, t: Tree, depth: nat) returns (r: Result<()>)
    modifies category
    ensures category.title == old(category.title) && category.text == old(category.text)
    ensures r.Ok? ==> category.children == old(category.children) + [t]
    ensures r.Err? ==> category.children == old(category.children)
    ensures r.Err? ==> r.error == AlreadyExist || r.error == RecursionError
    ensures t.FeedLeaf? ==>
      (r.Ok? <==> t.feed.xmlUrl !in old(category.urls)) &&
      (r.Ok? ==> category.urls == old(category.urls) + [t.feed.xmlUrl]) &&
      (r.Err? ==> category.urls == old(category.urls) && r.error == AlreadyExist)
    ensures t.CategoryNode? ==> category.urls == old(category.urls)
    ensures t.CategoryNode? && r == Err(AlreadyExist) ==>
      t.category == category || old(Reaches(category, t, depth)) ||
      old(Reaches(t.category, CategoryNode(category), depth))
    ensures (&& t.CategoryNode? && old(Bounded(category, depth)) && old(Bounded(t.category, depth))
             && t.category != category && !old(Reaches(category, t, depth))
             && !old(Reaches(t.category, CategoryNode(category), depth))) ==> r.Ok?
  {
    ListInsertContents(category.children, |category.children|, t);
    r := category.Insert(|category.children|, Instance(t), depth);
  }

  /**
   * `FeedList`: the OPML document's root category plus `all_feeds`, the
   * map that makes feeds with the same key one shared object.
   */
  class FeedList {
    var title: Option<string>
    var feedlist: FeedCategory
    var allFeeds: map<Key, Feed>

    /** Every interned feed still carries the key it is interned under. */
    ghost predicate Interned()
      reads this, allFeeds.Values
    {
      forall k :: k in allFeeds ==>
        allFeeds[k].rsstype == k.kind && allFeeds[k].title == k.title &&
        allFeeds[k].xmlUrl == k.xmlUrl
    }

    /**
     * `FeedList.__init__` without a document: titled `'EarthReader'`, an
     * empty root category of that title, nothing interned.
     */
    constructor()
      ensures title == Some("EarthReader")
      ensures fresh(feedlist) && feedlist.title == title
      ensures feedlist.children == [] && feedlist.urls == []
      ensures allFeeds == map[] && Interned()
    {
      title := Some("EarthReader");
      feedlist := new FeedCategory(Some("EarthReader"), None);
      allFeeds := map[];
    }

    /**
     * `make_feed`: the feed interned under `(type, title, xml_url)`, made
     * and interned when there is none.  A feed already interned is
     * returned itself, with its `html_url` and `text` overwritten; `text`
     * defaults to the title.
     */
    method MakeFeed(typ: Option<string>, title: Option<string>, xmlUrl: Option<string>,
                    htmlUrl: Option<string>, text: Option<string>) returns (feed: Feed)
      requires Interned()
      modifies this, allFeeds.Values
      ensures Interned() && feedlist == old(feedlist) && this.title == old(this.title)
      ensures Key(typ, title, xmlUrl) in allFeeds && allFeeds[Key(typ, title, xmlUrl)] == feed
      ensures Data(feed) == FeedData(typ, title, xmlUrl, htmlUrl, Or(text, title))
      ensures Key(typ, title, xmlUrl) in old(allFeeds) ==>
        feed == old(allFeeds[Key(typ, title, xmlUrl)]) && allFeeds == old(allFeeds)
      ensures Key(typ, title, xmlUrl) !in old(allFeeds) ==>
        fresh(feed) && allFeeds == old(allFeeds)[Key(typ, title, xmlUrl) := feed]
      ensures forall f :: f in old(allFeeds.Values) && f != feed ==> unchanged(f)
    {
      var t := Or(text, title);
      var key := Key(typ, title, xmlUrl);
      if key in allFeeds {
        feed := allFeeds[key];
        feed.htmlUrl := htmlUrl;
        feed.text := t;
      } else {
        feed := new Feed(typ, title, xmlUrl, htmlUrl, t);
        allFeeds := allFeeds[key := feed];
      }
    }

    /**
     * `add_feed`: interns the feed as `make_feed` does, then appends it to
     * the root category, which refuses a url it already holds.  The feed
     * stays interned either way.
     */
    method AddFeed(typ: Option<string>, title: Option<string>, xmlUrl: Option<string>,
                   htmlUrl: Option<string>, text: Option<string>) returns (r: Result<()>)
      requires Interned()
      modifies this, allFeeds.Values, feedlist
      ensures Interned() && feedlist == old(feedlist)
      ensures Key(typ, title, xmlUrl) in allFeeds
      ensures r.Ok? <==> xmlUrl !in old(feedlist.urls)
      ensures r.Err? ==> r.error == AlreadyExist && feedlist.children == old(feedlist.children)
      ensures r.Ok? ==> feedlist.children == old(feedlist.children) + [FeedLeaf(allFeeds[Key(typ, title, xmlUrl)])]
    {
      var feed := MakeFeed(typ, title, xmlUrl, htmlUrl, text);
      ListInsertContents(feedlist.children, |feedlist.children|, FeedLeaf(feed));
      r := feedlist.Insert(|feedlist.children|, Instance(FeedLeaf(feed)), 1);
    }
  
    /**
     * `FeedList.insert`: looks the value up by `(type, title, xml_url)`,
     * where `type` is the tree type (`'feed'` or `'category'`) and a
     * category has no url.  When the key is interned, the interned feed is
     * inserted into the root category instead of the value, and then takes
     * the value's `html_url` and `text`, which a category does not have
     * (`AttributeError`, after the insertion).  Otherwise the value itself
     * is inserted.  A value that is not a tree has no `type`.
     */
    method Insert(index: int, feed: Arg<Tree>, depth: nat) returns (r: Result<()>)
      requires Interned()
      modifies feedlist, allFeeds.Values
      ensures Interned()
      ensures feed.OtherType? ==> r == Err(AttributeError) && feedlist.children == old(feedlist.children)
      ensures feed.Instance? && old(TreeKey(feed.value)) !in allFeeds ==>
        (feed.value.FeedLeaf? ==> (r.Ok? <==> old(feed.value.feed.xmlUrl) !in old(feedlist.urls))) &&
        (r.Ok? ==> feedlist.children == ListInsert(old(feedlist.children), index, feed.value)) &&
        (r.Err? ==> feedlist.children == old(feedlist.children))
      ensures feed.Instance? && old(TreeKey(feed.value)) in allFeeds ==>
        var orig := allFeeds[old(TreeKey(feed.value))];
        (r.Err? && r.error == AlreadyExist <==> orig.xmlUrl in old(feedlist.urls)) &&
        (r.Ok? <==> feed.value.FeedLeaf? && orig.xmlUrl !in old(feedlist.urls)) &&
        (orig.xmlUrl !in old(feedlist.urls) ==>
           feedlist.children == ListInsert(old(feedlist.children), index, FeedLeaf(orig))) &&
        (orig.xmlUrl in old(feedlist.urls) ==> feedlist.children == old(feedlist.children)) &&
        (r.Ok? ==> orig.htmlUrl == old(feed.value.feed.htmlUrl) && orig.text == old(feed.value.feed.text))
      ensures feedlist.title == old(feedlist.title) && feedlist.text == old(feedlist.text)
      ensures feed.OtherType? ==> feedlist.urls == old(feedlist.urls)
      ensures feed.Instance? && old(TreeKey(feed.value)) !in allFeeds ==>
        (r.Ok? && feed.value.FeedLeaf? ==> feedlist.urls == old(feedlist.urls) + [old(feed.value.feed.xmlUrl)]) &&
        (r.Err? || feed.value.CategoryNode? ==> feedlist.urls == old(feedlist.urls))
      ensures feed.Instance? && old(TreeKey(feed.value)) in allFeeds ==>
        var orig := allFeeds[old(TreeKey(feed.value))];
        (orig.xmlUrl !in old(feedlist.urls) ==> feedlist.urls == old(feedlist.urls) + [orig.xmlUrl]) &&
        (orig.xmlUrl in old(feedlist.urls) ==> feedlist.urls == old(feedlist.urls))
      ensures forall f :: f in old(allFeeds.Values) ==>
                unchanged(f) ||
                (r.Ok? && feed.Instance? && old(TreeKey(feed.value)) in allFeeds && f == allFeeds[old(TreeKey(feed.value))])
    {
      if feed.OtherType? {
        return Err(AttributeError);
      }
      var t := feed.value;
      var key := TreeKey(t);
      if key in allFeeds {
        var orig := allFeeds[key];
        r := feedlist.Insert(index, Instance(FeedLeaf(orig)), depth);
        if r.Err? {
          return;
        }
        match t {
          case FeedLeaf(f) =>
            var html := f.htmlUrl;
            orig.htmlUrl := html;
            var text := f.text;
            orig.text := text;
          case CategoryNode(_) =>
            r := Err(AttributeError);
        }
      } else {
        r := feedlist.Insert(index, feed, depth);
      }
    }

    /**
     * `convert_from_outline`: an outline with children becomes a new
     * category titled by the outline's title or else its text, holding the
     * conversions of the children in order; a childless outline becomes
     * the feed `make_feed` interns for it.  Appending a converted child
     * can fail as `insert` does.
     */
    method ConvertFromOutline(o: OutlineElement, depth: nat) returns (r: Result<Tree>, ghost cats: set<FeedCategory>)
      requires Interned()
      modifies this, allFeeds.Values
      ensures Interned() && feedlist == old(feedlist) && title == old(title)
      ensures Grows(old(allFeeds), allFeeds)
      ensures fresh(cats)
      ensures r.Ok? ==> Built(o, r.value, allFeeds, cats)
      ensures r.Ok? ==> Converted(o, r.value, allFeeds)
      ensures r.Ok? && o.children == [] ==> Data(r.value.feed) == FeedFields(o)
      ensures r.Ok? && o.children != [] ==>
        var c := r.value.category;
        fresh(c) && c.title == Or(o.title, o.text) && c.text == c.title &&
        |c.children| == |o.children| &&
        forall i :: 0 <= i < |o.children| ==> Converted(o.children[i], c.children[i], allFeeds)
      ensures o.children == [] ==> r.Ok?
      ensures r.Ok? ==> NoSharedUrl(o)
      ensures r == Err(AlreadyExist) ==> !NoSharedUrl(o)
      ensures r == Err(RecursionError) ==> !Within(o, depth)
      ensures r.Err? ==> r.error == AlreadyExist || r.error == RecursionError
      decreases o, 2
    {
      if o.children == [] {
        var f := MakeFeed(o.typ, Or(o.title, o.text), o.xmlUrl, o.htmlUrl, o.text);
        return Ok(FeedLeaf(f)), {};
      }
      var name := Or(o.title, o.text);
      var res := new FeedCategory(name, None);
      var done;
      done, cats := ConvertChildren(o, res, depth);
      if done.Err? {
        return Err(done.error), cats;
      }
      AllBuiltKept(o.children, res.children, allFeeds, allFeeds, cats, cats + {res});
      cats := cats + {res};
      BuiltCategory(o, res, allFeeds, cats);
      BuiltConverted(o, CategoryNode(res), allFeeds, cats);
      return Ok(CategoryNode(res)), cats;
    }

    /**
     * The loop of `convert_from_outline` over an outline's children: each
     * is converted in turn and appended to `res`, which fails as `insert`
     * does; on success `res` holds what each child was built into.
     */
    method ConvertChildren(o: OutlineElement, res: FeedCategory, depth: nat)
        returns (r: Result<()>, ghost cats: set<FeedCategory>)
      requires Interned() && res.children == [] && res.urls == []
      modifies this, allFeeds.Values, res
      ensures Interned() && feedlist == old(feedlist) && title == old(title)
      ensures Grows(old(allFeeds), allFeeds)
      ensures res.title == old(res.title) && res.text == old(res.text)
      ensures fresh(cats) && res !in cats
      ensures r.Ok? ==> AllBuilt(o.children, res.children, allFeeds, cats)
      ensures r.Ok? ==> NoSharedUrl(o)
      ensures r == Err(AlreadyExist) ==> !NoSharedUrl(o)
      ensures r == Err(RecursionError) ==> !Within(o, depth)
      ensures r.Err? ==> r.error == AlreadyExist || r.error == RecursionError
      decreases o, 1
    {
      cats := {};
      var i := 0;
      while i < |o.children|
        invariant 0 <= i <= |o.children|
        invariant Interned() && feedlist == old(feedlist) && title == old(title)
        invariant Grows(old(allFeeds), allFeeds)
        invariant res.title == old(res.title) && res.text == old(res.text)
        invariant fresh(cats) && res !in cats
        invariant AllBuilt(o.children[..i], res.children, allFeeds, cats)
        invariant res.urls == LeafUrls(o.children[..i]) && DistinctUrls(o.children[..i])
        invariant forall j :: 0 <= j < i ==> NoSharedUrl(o.children[j])
      {
        var added, below := ConvertChild(o, i, res, depth, cats);
        cats := cats + below;
        if added.Err? {
          return Err(added.error), cats;
        }
        i := i + 1;
      }
      assert o.children[..i] == o.children;
      return Ok(()), cats;
    }

    /**
     * One turn of that loop: child `i` is converted and appended to `res`,
     * which already holds what the earlier children were built into.
     */
    method ConvertChild(o: OutlineElement, i: nat, res: FeedCategory, depth: nat, ghost cats: set<FeedCategory>)
        returns (r: Result<()>, ghost below: set<FeedCategory>)
      requires i < |o.children| && Interned() && res !in cats
      requires AllBuilt(o.children[..i], res.children, allFeeds, cats)
      requires res.urls == LeafUrls(o.children[..i])
      modifies this, allFeeds.Values, res
      ensures Interned() && feedlist == old(feedlist) && title == old(title)
      ensures Grows(old(allFeeds), allFeeds)
      ensures res.title == old(res.title) && res.text == old(res.text)
      ensures fresh(below) && res !in below
      ensures r.Ok? ==> AllBuilt(o.children[..i + 1], res.children, allFeeds, cats + below)
      ensures r.Ok? ==> res.urls == LeafUrls(o.children[..i + 1]) && NoSharedUrl(o.children[i])
      ensures r.Ok? && DistinctUrls(o.children[..i]) ==> DistinctUrls(o.children[..i + 1])
      ensures r == Err(AlreadyExist) ==> !NoSharedUrl(o)
      ensures r == Err(RecursionError) ==> !Within(o, depth)
      ensures r.Err? ==> r.error == AlreadyExist || r.error == RecursionError
      decreases o, 0
    {
      ghost var before := allFeeds;
      var child;
      child, below := ConvertFromOutline(o.children[i], depth);
      WithinChild(o, i, depth);
      if child.Err? {
        return Err(child.error), below;
      }
      ChildFits(o, i, res, child.value, before, allFeeds, cats, below, depth);
      UrlsStep(o.children, i);
      AllBuiltKept(o.children[..i], res.children, before, allFeeds, cats, cats + below);
      BuiltKept(o.children[i], child.value, allFeeds, allFeeds, below, cats + below);
      AllBuiltSnoc(o.children[..i], res.children, o.children[i], child.value, allFeeds, cats + below);
      assert o.children[..i] + [o.children[i]] == o.children[..i + 1];
      r := Append(res, child.value, depth);
    }

    /**
     * `convert_to_outline`: a feed becomes an outline carrying its
     * `rsstype`, text, title and urls; a category becomes an outline of
     * type `'category'` with its text and title and the conversions of its
     * children.  A category graph deeper than `depth` is `RecursionError`.
     */
    method ConvertToOutline(t: Tree, depth: nat) returns (r: Result<OutlineElement>)
      ensures OutlineOf(t, depth).Some? ==> r == Ok(OutlineOf(t, depth).value)
      ensures OutlineOf(t, depth).None? ==> r == Err(RecursionError)
      ensures t.FeedLeaf? ==> r == Ok(FeedOutline(Data(t.feed)))
      ensures t.CategoryNode? && depth == 0 ==> r == Err(RecursionError)
      ensures r.Err? ==> r.error == RecursionError
      ensures t.CategoryNode? && Bounded(t.category, depth) ==> r.Ok?
      ensures r.Ok? && t.CategoryNode? ==>
        var c := t.category;
        r.value.typ == Some("category") && r.value.text == c.text && r.value.title == c.title &&
        r.value.xmlUrl.None? && r.value.htmlUrl.None? &&
        |r.value.children| == |c.children| &&
        forall i :: 0 <= i < |c.children| ==>
          (c.children[i].FeedLeaf? ==> r.value.children[i] == FeedOutline(Data(c.children[i].feed))) &&
          (c.children[i].CategoryNode? ==> r.value.children[i].typ == Some("category"))
      decreases depth
    {
      match t {
        case FeedLeaf(f) =>
          return Ok(FeedOutline(Data(f)));
        case CategoryNode(c) =>
          if depth == 0 {
            return Err(RecursionError);
          }
          var children: seq<OutlineElement> := [];
          var i := 0;
          while i < |c.children|
            invariant 0 <= i <= |c.children| && |children| == i
            invariant ChildOutlines(c.children[..i], depth - 1) == Some(children)
          {
            var sub := ConvertToOutline(c.children[i], depth - 1);
            assert c.children[..i + 1][..i] == c.children[..i];
            if sub.Err? {
              ChildOutlinesNone(c.children, i + 1, depth - 1);
              if Bounded(c, depth) {
                BoundedHasOutline(c, depth);
              }
              return Err(sub.error);
            }
            children := children + [sub.value];
            i := i + 1;
          }
          assert c.children[..i] == c.children;
          CategoryOutline(c, depth);
          return Ok(OutlineElement(Some("category"), c.text, c.title, None, None, children));
      }
    }
    /**
     * `insert` as its lookup is evidently meant: a feed is looked up under
     * the key `make_feed` interns it by, `(rsstype, title, xml_url)`, and
     * the interned feed is inserted and takes the value's `html_url` and
     * `text`; anything else is inserted as it is.
     */
    method InsertIntended(index: int, feed: Arg<Tree>, depth: nat) returns (r: Result<()>)
      requires Interned()
      modifies feedlist, allFeeds.Values
      ensures Interned()
      ensures feed.OtherType? ==> r == Err(TypeError) && feedlist.children == old(feedlist.children)
      ensures r.Err? ==> feedlist.children == old(feedlist.children)
      ensures feed.Instance? && feed.value.FeedLeaf? && old(InternKey(feed.value.feed)) in allFeeds ==>
        var orig := allFeeds[old(InternKey(feed.value.feed))];
        Data(orig).rsstype == old(feed.value.feed.rsstype) &&
        Data(orig).title == old(feed.value.feed.title) &&
        Data(orig).xmlUrl == old(feed.value.feed.xmlUrl) &&
        (r.Ok? <==> orig.xmlUrl !in old(feedlist.urls)) &&
        (r.Ok? ==> feedlist.children == ListInsert(old(feedlist.children), index, FeedLeaf(orig)) &&
                   orig.htmlUrl == old(feed.value.feed.htmlUrl) && orig.text == old(feed.value.feed.text))
      ensures feed.Instance? && (feed.value.CategoryNode? || old(InternKey(feed.value.feed)) !in allFeeds) ==>
        (r.Ok? ==> feedlist.children == ListInsert(old(feedlist.children), index, feed.value))
    {
      if feed.OtherType? {
        return Err(TypeError);
      }
      match feed.value {
        case FeedLeaf(f) =>
          var key := InternKey(f);
          if key in allFeeds {
            var orig := allFeeds[key];
            r := feedlist.Insert(index, Instance(FeedLeaf(orig)), depth);
            if r.Ok? {
              var html := f.htmlUrl;
              orig.htmlUrl := html;
              var text := f.text;
              orig.text := text;
            }
          } else {
            r := feedlist.Insert(index, feed, depth);
          }
        case CategoryNode(_) =>
          r := feedlist.Insert(index, feed, depth);
      }
    }
  }

  /** The key `make_feed` interns a feed under. */
  function InternKey(f: Feed): (k: Key)
    reads f
    ensures k.kind == f.rsstype && k.title == f.title && k.xmlUrl == f.xmlUrl
  {
    Key(f.rsstype, f.title, f.xmlUrl)
  }

  /** The key `FeedList.insert` looks a tree up by. */
  function TreeKey(t: Tree): (k: Key)
    reads if t.FeedLeaf? then {t.feed} else {}, if t.CategoryNode? then {t.category} else {}
    ensures t.FeedLeaf? ==> k == Key(Some("feed"), t.feed.title, t.feed.xmlUrl)
    ensures t.CategoryNode? ==> k == Key(Some("category"), t.category.title, None)
  {
    match t
    case FeedLeaf(f) => Key(Some("feed"), f.title, f.xmlUrl)
    case CategoryNode(c) => Key(Some("category"), c.title, None)
  }

  /** What a conversion built stays valid while the interning map only grows. */
  lemma ConvertedKept(o: OutlineElement, t: Tree, feeds1: map<Key, Feed>, feeds2: map<Key, Feed>)
    requires Converted(o, t, feeds1)
    requires forall k :: k in feeds1 ==> k in feeds2 && feeds2[k] == feeds1[k]
    ensures Converted(o, t, feeds2)
  {
  }

  /**
   * Two childless outlines with the same key convert to the same feed
   * object, wherever they sit in the document.
   */
  lemma SharedFeed(o1: OutlineElement, o2: OutlineElement, t1: Tree, t2: Tree, feeds: map<Key, Feed>)
    requires o1.children == [] && o2.children == []
    requires OutlineKey(o1) == OutlineKey(o2)
    requires Converted(o1, t1, feeds) && Converted(o2, t2, feeds)
    ensures t1 == t2
  {
  }

  /**
   * As written, `FeedList.insert` misses the feed `make_feed` interned:
   * after `make_feed('rss', 't', 'u')`, inserting another `Feed('rss', 't',
   * 'u')` inserts that other object, because the lookup uses the tree type
   * `'feed'` where `make_feed` used `'rss'`.
   */
  method InsertMissesInterned() returns (made: Feed, other: Feed, inserted: Tree)
    ensures made != other && inserted == FeedLeaf(other)
  {
    var list := new FeedList();
    made := list.MakeFeed(Some("rss"), Some("t"), Some("u"), None, None);
    other := new Feed(Some("rss"), Some("t"), Some("u"), None, None);
    assert TreeKey(FeedLeaf(other)) != Key(Some("rss"), Some("t"), Some("u"));
    var r := list.Insert(0, Instance(FeedLeaf(other)), 1);
    inserted := list.feedlist.children[0];
  }

  /** With the intended lookup the same two steps insert the interned feed. */
  method InsertIntendedFindsInterned() returns (made: Feed, other: Feed, inserted: Tree)
    ensures made != other && inserted == FeedLeaf(made)
  {
    var list := new FeedList();
    made := list.MakeFeed(Some("rss"), Some("t"), Some("u"), None, None);
    other := new Feed(Some("rss"), Some("t"), Some("u"), None, None);
    var r := list.InsertIntended(0, Instance(FeedLeaf(other)), 1);
    inserted := list.feedlist.children[0];
  }

  /**
   * `__delitem__` leaves the deleted feed's url in `urls`, so the same
   * feed cannot be inserted again into that category.
   */
  method ReinsertAfterDelete() returns (first: Result<()>, second: Result<()>)
    ensures first.Ok? && second == Err(AlreadyExist)
  {
    var c := new FeedCategory(Some("c"), None);
    var f := new Feed(Some("rss"), Some("t"), Some("u"), None, None);
    first := c.Insert(0, Instance(FeedLeaf(f)), 1);
    var gone := c.DelItem(0);
    second := c.Insert(0, Instance(FeedLeaf(f)), 1);
  }
}
