/**
 * The subscription list of libearth/subscribe.py: an OPML tree of
 * `outline` elements used as a set.  Subscriptions are identified by their
 * feed URL and categories by their label; adding refuses duplicates,
 * discarding removes every equal child, and iterating yields one outline
 * per identity while upgrading raw outlines to `Subscription` and
 * `Category` objects in place.
 *
 * Outlines are values here; the list itself (`SubscriptionList`) is a
 * class whose `head` and `body` the accessors create on demand.
 */
module Subscribe {
  import opened Wrappers

  // ------------------------------------------------------------- outlines

  /** The Python class of an outline object, which several `isinstance` tests read. */
  datatype Class = PlainOutline | SubscriptionClass | CategoryClass

  /** An `outline` element with the attributes the set logic reads or writes. */
  datatype Outline = Outline(
    cls: Class,
    text: Option<string>,
    typ: Option<string>,
    createdAt: Option<int>,
    feedUri: Option<string>,
    alternateUri: Option<string>,
    feedId: Option<string>,
    title: Option<string>,
    children: seq<Outline>)

  /** The `type` attribute as read: `Subscription` defaults it to `'rss'`, `Category` to `'category'`. */
  function Type(o: Outline): Option<string>
  {
    if o.typ.Some? then o.typ
    else match o.cls
      case PlainOutline => None
      case SubscriptionClass => Some("rss")
      case CategoryClass => Some("category")
  }

  predicate IsRss(o: Outline) { Type(o) == Some("rss") }

  /** Python truthiness of an optional text. */
  predicate Truthy(x: Option<string>) { x.Some? && x.value != "" }

  /** `a == b` for two outlines: by feed URL when `a` is of type `'rss'`, else by label. */
  predicate Equal(a: Outline, b: Outline)
  {
    if IsRss(a) then a.feedUri == b.feedUri else a.text == b.text
  }

  /**
   * `l == r` as Python evaluates it.  `Subscription` and `Category` are
   * subclasses of `Outline`, and when the right operand's class is a
   * proper subclass of the left operand's, Python tries the right
   * operand's `__eq__` first; otherwise the left operand's runs.
   */
  predicate PyEq(l: Outline, r: Outline)
  {
    if l.cls == PlainOutline && r.cls != PlainOutline then Equal(r, l) else Equal(l, r)
  }

  /** Between a plain outline and an upgraded one, the upgraded one decides, on either side. */
  lemma SubclassDecides(plain: Outline, upgraded: Outline)
    requires plain.cls == PlainOutline && upgraded.cls != PlainOutline
    ensures PyEq(plain, upgraded) == Equal(upgraded, plain)
    ensures PyEq(upgraded, plain) == Equal(upgraded, plain)
  {
  }

  /** `a == other` for an argument of any class: an outline never equals a non-outline. */
  predicate EqualTo(a: Outline, other: Arg<Outline>)
  {
    other.Instance? && PyEq(a, other.value)
  }

  /** What `__hash__` hashes: the feed URL of an rss outline, else the label. */
  function HashKey(o: Outline): Option<string>
  {
    if IsRss(o) then o.feedUri else o.text
  }

  /**
   * Between two outlines of the same kind, equality is symmetric and agrees
   * with the hashed value.
   */
  lemma HashAgreesWithEqual(a: Outline, b: Outline)
    requires IsRss(a) == IsRss(b)
    ensures Equal(a, b) <==> HashKey(a) == HashKey(b)
    ensures Equal(a, b) <==> Equal(b, a)
  {
  }

  /**
   * Between outlines of different kinds it is not: an rss outline equals a
   * category with the same feed URL, but not the other way round.
   */
  lemma EqualNotSymmetric(uri: string)
    ensures var a := Outline(PlainOutline, Some("a"), Some("rss"), None, Some(uri), None, None, None, []);
            var b := Outline(PlainOutline, Some("b"), Some("category"), None, Some(uri), None, None, None, []);
            Equal(a, b) && !Equal(b, a)
  {
  }

  // ------------------------------------------------------------ iteration

  /** The branch `__iter__` takes: the subscription branch or the category one. */
  predicate SubscriptionBranch(o: Outline)
  {
    Type(o) == Some("rss") || Truthy(o.feedUri) || o.cls == SubscriptionClass
  }

  /** What `__iter__` de-duplicates on: feed URLs in one branch, labels in the other. */
  datatype Slot = FeedSlot(uri: Option<string>) | LabelSlot(text: Option<string>)

  function SlotOf(o: Outline): Slot
  {
    if SubscriptionBranch(o) then FeedSlot(o.feedUri) else LabelSlot(o.text)
  }

  /** The slots a run of outlines takes. */
  function Slots(cs: seq<Outline>): set<Slot>
    decreases |cs|
  {
    if cs == [] then {} else Slots(cs[..|cs| - 1]) + {SlotOf(cs[|cs| - 1])}
  }

  lemma SlotsStep(cs: seq<Outline>, i: nat)
    requires i < |cs|
    ensures Slots(cs[..i + 1]) == Slots(cs[..i]) + {SlotOf(cs[i])}
  {
    assert cs[..i + 1][..i] == cs[..i];
  }

  /** A slot is taken exactly when some outline of the run has it. */
  lemma {:induction false} SlotsMembers(cs: seq<Outline>, s: Slot)
    ensures s in Slots(cs) <==> exists j :: 0 <= j < |cs| && SlotOf(cs[j]) == s
    decreases |cs|
  {
    if cs != [] {
      var init := cs[..|cs| - 1];
      SlotsMembers(init, s);
      if s in Slots(init) {
        var j :| 0 <= j < |init| && SlotOf(init[j]) == s;
        assert SlotOf(cs[j]) == s;
      }
      forall j | 0 <= j < |cs| - 1
        ensures cs[j] == init[j]
      {
      }
    }
  }

  /** Whether child `i` is the first of its slot: the children `__iter__` yields. */
  predicate First(cs: seq<Outline>, i: nat)
    requires i < |cs|
  {
    SlotOf(cs[i]) !in Slots(cs[..i])
  }

  /** Being first means no earlier child shares the slot. */
  lemma FirstMeansEarliest(cs: seq<Outline>, i: nat)
    requires i < |cs|
    ensures First(cs, i) <==> forall j :: 0 <= j < i ==> SlotOf(cs[j]) != SlotOf(cs[i])
  {
    SlotsMembers(cs[..i], SlotOf(cs[i]));
    assert forall j :: 0 <= j < i ==> cs[..i][j] == cs[j];
  }

  /**
   * Whether the outline can be upgraded: an rss outline that is not yet a
   * `Subscription` and has neither an `id` nor a feed URL makes the SHA-1
   * call fail with `AttributeError` on `None`.
   */
  predicate Promotable(o: Outline)
  {
    !(SubscriptionBranch(o) && o.cls != SubscriptionClass && !Truthy(o.feedId) && o.feedUri.None?)
  }

  /**
   * The object `__iter__` yields for a first child, which it also stores
   * back at the child's index.  `digest` stands for the hex SHA-1 digest of
   * the UTF-8 text, which supplies a missing feed `id`.
   */
  function Promote(o: Outline, digest: string -> string): (r: Outline)
    requires Promotable(o)
    ensures SlotOf(r) == SlotOf(o)
    ensures r.cls == (if SubscriptionBranch(o) then SubscriptionClass else CategoryClass)
    ensures r.text == o.text && r.createdAt == o.createdAt
    ensures SubscriptionBranch(o) ==> r.feedUri == o.feedUri && Truthy(r.feedId) == (r.feedId.Some? && r.feedId.value != "")
    ensures !SubscriptionBranch(o) ==> r.children == o.children
  {
    if SubscriptionBranch(o) then
      if o.cls == SubscriptionClass then o
      else
        var id := if Truthy(o.feedId) then o.feedId else Some(digest(o.feedUri.value));
        Outline(SubscriptionClass, o.text, None, o.createdAt, o.feedUri, o.alternateUri, id, o.text, [])
    else if o.cls == CategoryClass then o
    else Outline(CategoryClass, o.text, None, o.createdAt, None, None, None, o.text, o.children)
  }

  /** Upgrading an upgraded outline changes nothing. */
  lemma PromoteTwice(o: Outline, digest: string -> string)
    requires Promotable(o)
    ensures Promotable(Promote(o, digest))
    ensures Promote(Promote(o, digest), digest) == Promote(o, digest)
  {
  }

  /** The index from `i` on where the iteration raises, or `|cs|` when it does not. */
  function StopFrom(cs: seq<Outline>, i: nat): (r: nat)
    requires i <= |cs|
    ensures i <= r <= |cs|
    ensures forall j :: i <= j < r ==> (First(cs, j) ==> Promotable(cs[j]))
    ensures r < |cs| ==> First(cs, r) && !Promotable(cs[r])
    decreases |cs| - i
  {
    if i == |cs| then |cs|
    else if First(cs, i) && !Promotable(cs[i]) then i
    else StopFrom(cs, i + 1)
  }

  /** Where a full iteration over `cs` stops: `|cs|` unless an upgrade fails. */
  function Stop(cs: seq<Outline>): (r: nat)
    ensures r <= |cs|
  {
    StopFrom(cs, 0)
  }

  /** Child `i` once the iteration has passed it. */
  function Visited(cs: seq<Outline>, i: nat, digest: string -> string): Outline
    requires i < Stop(cs)
  {
    if First(cs, i) then Promote(cs[i], digest) else cs[i]
  }

  /** What `__iter__` yields from the first `n` children. */
  function Yields(cs: seq<Outline>, n: nat, digest: string -> string): seq<Outline>
    requires n <= Stop(cs)
  {
    if n == 0 then []
    else Yields(cs, n - 1, digest) + (if First(cs, n - 1) then [Promote(cs[n - 1], digest)] else [])
  }

  /** No two outlines of the run share a slot. */
  predicate Distinct(ys: seq<Outline>)
  {
    forall i, j :: 0 <= i < j < |ys| ==> SlotOf(ys[i]) != SlotOf(ys[j])
  }

  /** The slots of what the iteration yields are the slots of the children it passed. */
  lemma {:induction false} YieldsSlots(cs: seq<Outline>, n: nat, digest: string -> string)
    requires n <= Stop(cs)
    ensures Slots(Yields(cs, n, digest)) == Slots(cs[..n])
  {
    if n > 0 {
      YieldsSlots(cs, n - 1, digest);
      SlotsStep(cs, n - 1);
      var ys := Yields(cs, n - 1, digest);
      if First(cs, n - 1) {
        var p := Promote(cs[n - 1], digest);
        assert Yields(cs, n, digest) == ys + [p];
        AppendSlots(ys, p);
      } else {
        assert Yields(cs, n, digest) == ys + [];
        assert ys + [] == ys;
      }
    }
  }

  lemma AppendSlots(ys: seq<Outline>, p: Outline)
    ensures Slots(ys + [p]) == Slots(ys) + {SlotOf(p)}
  {
    assert (ys + [p])[..|ys|] == ys;
  }

  /**
   * The iteration yields each slot of the children it passes exactly once,
   * in child order, and only `Subscription` and `Category` objects.
   */
  lemma {:induction false} YieldsOnePerSlot(cs: seq<Outline>, n: nat, digest: string -> string)
    requires n <= Stop(cs)
    ensures Slots(Yields(cs, n, digest)) == Slots(cs[..n])
    ensures Distinct(Yields(cs, n, digest))
    ensures forall k :: 0 <= k < |Yields(cs, n, digest)| ==> Yields(cs, n, digest)[k].cls != PlainOutline
  {
    YieldsSlots(cs, n, digest);
    if n > 0 {
      YieldsOnePerSlot(cs, n - 1, digest);
      if First(cs, n - 1) {
        var ys := Yields(cs, n - 1, digest);
        var p := Promote(cs[n - 1], digest);
        YieldsSlots(cs, n - 1, digest);
        forall k | 0 <= k < |ys|
          ensures SlotOf(ys[k]) != SlotOf(p)
        {
          SlotsMembers(ys, SlotOf(ys[k]));
        }
        DistinctAppend(ys, p);
      }
    }
  }

  lemma DistinctAppend(ys: seq<Outline>, p: Outline)
    requires Distinct(ys)
    requires forall k :: 0 <= k < |ys| ==> SlotOf(ys[k]) != SlotOf(p)
    ensures Distinct(ys + [p])
  {
  }

  /** The children after a complete iteration. */
  function VisitAll(cs: seq<Outline>, digest: string -> string): seq<Outline>
    requires Stop(cs) == |cs|
  {
    seq(|cs|, i requires 0 <= i < |cs| => Visited(cs, i, digest))
  }

  /** Upgrading keeps every slot, so the same children come first. */
  lemma {:induction false} VisitKeepsSlots(cs: seq<Outline>, digest: string -> string, n: nat)
    requires Stop(cs) == |cs| && n <= |cs|
    ensures Slots(VisitAll(cs, digest)[..n]) == Slots(cs[..n])
  {
    if n > 0 {
      VisitKeepsSlots(cs, digest, n - 1);
      SlotsStep(cs, n - 1);
      SlotsStep(VisitAll(cs, digest), n - 1);
    }
  }

  /**
   * Iterating a second time after a complete iteration fails nowhere,
   * changes no child and yields the same outlines.
   */
  lemma IterateTwice(cs: seq<Outline>, digest: string -> string)
    requires Stop(cs) == |cs|
    ensures Stop(VisitAll(cs, digest)) == |cs|
    ensures VisitAll(VisitAll(cs, digest), digest) == VisitAll(cs, digest)
    ensures Yields(VisitAll(cs, digest), |cs|, digest) == Yields(cs, |cs|, digest)
  {
    var v := VisitAll(cs, digest);
    forall i | 0 <= i < |cs|
      ensures First(v, i) == First(cs, i)
    {
      VisitKeepsSlots(cs, digest, i);
    }
    forall i | 0 <= i < |cs| && First(v, i)
      ensures Promotable(v[i]) && Promote(v[i], digest) == v[i]
    {
      PromoteTwice(cs[i], digest);
    }
    NoStop(v);
    VisitFixed(v, digest);
    YieldsAgree(cs, v, digest, |cs|);
  }

  /** A pass over children whose first ones can all be upgraded does not stop early. */
  lemma NoStop(cs: seq<Outline>)
    requires forall i :: 0 <= i < |cs| && First(cs, i) ==> Promotable(cs[i])
    ensures Stop(cs) == |cs|
  {
  }

  /** Children that upgrading leaves alone are left alone by a pass. */
  lemma VisitFixed(v: seq<Outline>, digest: string -> string)
    requires Stop(v) == |v|
    requires forall i :: 0 <= i < |v| && First(v, i) ==> Promote(v[i], digest) == v[i]
    ensures VisitAll(v, digest) == v
  {
    var w := VisitAll(v, digest);
    forall i | 0 <= i < |v|
      ensures w[i] == v[i]
    {
    }
  }

  lemma {:induction false} YieldsAgree(cs: seq<Outline>, v: seq<Outline>, digest: string -> string, n: nat)
    requires Stop(cs) == |cs| && v == VisitAll(cs, digest) && Stop(v) == |v|
    requires forall i :: 0 <= i < |cs| ==> First(v, i) == First(cs, i)
    requires forall i :: 0 <= i < |cs| && First(v, i) ==> Promote(v[i], digest) == v[i]
    requires n <= |cs|
    ensures Yields(v, n, digest) == Yields(cs, n, digest)
  {
    if n > 0 {
      YieldsAgree(cs, v, digest, n - 1);
    }
  }

  // ------------------------------------------------------------- contains

  /**
   * `outline in children`: list membership, where the outline searched for
   * is compared with each child (`outline == child`).
   */
  predicate Member(cs: seq<Outline>, o: Outline)
  {
    exists i :: 0 <= i < |cs| && PyEq(o, cs[i])
  }

  /**
   * The reference for a recursive search: a direct child, or inside a
   * category-branch child the iteration yields, at any depth.
   */
  predicate Within(cs: seq<Outline>, o: Outline, recursively: bool)
    decreases cs
  {
    || Member(cs, o)
    || (recursively && exists i :: 0 <= i < |cs| && First(cs, i) && !SubscriptionBranch(cs[i])
                                   && Within(cs[i].children, o, true))
  }

  /**
   * `for subcategory in self` in a recursive `contains`, from child `i` on:
   * a first child that cannot be upgraded raises `AttributeError`, a
   * category is searched recursively and a match ends the loop.
   */
  function Search(cs: seq<Outline>, o: Outline, i: nat): Result<bool>
    requires i <= |cs|
    decreases cs, 0, |cs| - i
  {
    if i == |cs| then Ok(false)
    else if !First(cs, i) then Search(cs, o, i + 1)
    else if !Promotable(cs[i]) then Err(AttributeError)
    else if SubscriptionBranch(cs[i]) then Search(cs, o, i + 1)
    else match ContainsRecursively(cs[i].children, o)
      case Err(e) => Err(e)
      case Ok(found) => if found then Ok(true) else Search(cs, o, i + 1)
  }

  /** `contains(outline, recursively=True)` for an outline argument. */
  function ContainsRecursively(cs: seq<Outline>, o: Outline): Result<bool>
    decreases cs, 1, 0
  {
    if Member(cs, o) then Ok(true) else Search(cs, o, 0)
  }

  /** `contains` with its type check. */
  function Contains(cs: seq<Outline>, arg: Arg<Outline>, recursively: bool): Result<bool>
  {
    match arg
    case OtherType => Err(TypeError)
    case Instance(o) => if recursively then ContainsRecursively(cs, o) else Ok(Member(cs, o))
  }

  /** `outline in s`: `contains` without recursion, a type error read as False. */
  function In(cs: seq<Outline>, arg: Arg<Outline>): bool
  {
    match Contains(cs, arg, false)
    case Ok(b) => b
    case Err(_) => false
  }

  /** Whether every pass a full recursive search makes, from child `i` on, upgrades all it reaches. */
  predicate CompleteFrom(cs: seq<Outline>, i: nat)
    requires i <= |cs|
    decreases cs, 0, |cs| - i
  {
    || i == |cs|
    || (&& (First(cs, i) ==> Promotable(cs[i]) && (SubscriptionBranch(cs[i]) || Complete(cs[i].children)))
        && CompleteFrom(cs, i + 1))
  }

  /** No iteration over the tree, at any depth, raises. */
  predicate Complete(cs: seq<Outline>)
    decreases cs, 1, 0
  {
    CompleteFrom(cs, 0)
  }

  /** Whether a category-branch child from `i` on holds the outline at any depth. */
  predicate InCategoryFrom(cs: seq<Outline>, o: Outline, i: nat)
  {
    exists j :: i <= j < |cs| && First(cs, j) && !SubscriptionBranch(cs[j]) && Within(cs[j].children, o, true)
  }

  /**
   * The search from child `i` finds only outlines that are there; it fails
   * only with `AttributeError` and only over a tree holding an outline that
   * cannot be upgraded; over a tree without one it answers exactly whether
   * the outline is there; and over a tree with one it fails when the
   * outline is not there.
   */
  lemma {:induction false} SearchSpec(cs: seq<Outline>, o: Outline, i: nat)
    requires i <= |cs|
    ensures Search(cs, o, i) == Ok(true) ==> InCategoryFrom(cs, o, i)
    ensures Search(cs, o, i).Err? ==> Search(cs, o, i).error == AttributeError && !CompleteFrom(cs, i)
    ensures CompleteFrom(cs, i) ==> Search(cs, o, i) == Ok(InCategoryFrom(cs, o, i))
    ensures !CompleteFrom(cs, i) && !InCategoryFrom(cs, o, i) ==> Search(cs, o, i) == Err(AttributeError)
    decreases cs, 0, |cs| - i
  {
    if i < |cs| {
      SearchSpec(cs, o, i + 1);
      assert InCategoryFrom(cs, o, i) <==>
             (First(cs, i) && !SubscriptionBranch(cs[i]) && Within(cs[i].children, o, true))
             || InCategoryFrom(cs, o, i + 1);
      if First(cs, i) && Promotable(cs[i]) && !SubscriptionBranch(cs[i]) {
        ContainsRecursivelySpec(cs[i].children, o);
      }
    }
  }

  /** The same for the whole recursive `contains`, measured against `Within`. */
  lemma {:induction false} ContainsRecursivelySpec(cs: seq<Outline>, o: Outline)
    ensures ContainsRecursively(cs, o) == Ok(true) ==> Within(cs, o, true)
    ensures ContainsRecursively(cs, o).Err? ==> ContainsRecursively(cs, o).error == AttributeError && !Complete(cs)
    ensures Complete(cs) ==> ContainsRecursively(cs, o) == Ok(Within(cs, o, true))
    ensures !Complete(cs) && !Within(cs, o, true) ==> ContainsRecursively(cs, o) == Err(AttributeError)
    decreases cs, 1, 0
  {
    SearchSpec(cs, o, 0);
  }

  /**
   * `in` is direct-child membership for outlines and False for anything
   * else; `contains` is a `TypeError` for a non-outline; the recursive
   * search finds at least what `in` finds, answers whether the outline is
   * anywhere in the tree when no pass raises, and otherwise raises
   * `AttributeError` unless it finds the outline first.
   */
  lemma ContainsShape(cs: seq<Outline>, arg: Arg<Outline>)
    ensures In(cs, arg) <==> arg.Instance? && Member(cs, arg.value)
    ensures arg.OtherType? ==> Contains(cs, arg, true) == Err(TypeError)
    ensures In(cs, arg) ==> Contains(cs, arg, true) == Ok(true)
    ensures arg.Instance? && Contains(cs, arg, true) == Ok(true) ==> Within(cs, arg.value, true)
    ensures arg.Instance? && Complete(cs) ==> Contains(cs, arg, true) == Ok(Within(cs, arg.value, true))
    ensures arg.Instance? && Contains(cs, arg, true).Err? ==> Contains(cs, arg, true) == Err(AttributeError) && !Complete(cs)
    ensures arg.Instance? && !Complete(cs) && !Within(cs, arg.value, true) ==> Contains(cs, arg, true) == Err(AttributeError)
  {
    if arg.Instance? {
      ContainsRecursivelySpec(cs, arg.value);
    }
  }

  /**
   * A plain rss outline with neither an `id` nor a feed URL makes the
   * iteration inside a recursive `contains` raise, although the outline
   * searched for is nowhere in the set.
   */
  lemma ContainsRaisesOnBadChild()
    ensures var bad := Outline(PlainOutline, Some("x"), Some("rss"), None, None, None, None, None, []);
            var arg := Outline(PlainOutline, Some("y"), Some("category"), None, None, None, None, None, []);
            Stop([bad]) == 0 && Contains([bad], Instance(arg), true) == Err(AttributeError)
  {
    var bad := Outline(PlainOutline, Some("x"), Some("rss"), None, None, None, None, None, []);
    var arg := Outline(PlainOutline, Some("y"), Some("category"), None, None, None, None, None, []);
    assert First([bad], 0) by { assert [bad][..0] == []; }
    assert !Member([bad], arg);
  }

  // ------------------------------------------------------------------ add

  /** `add` treats the value as a subscription when its type is `'rss'` or it is a `Subscription`. */
  predicate AddsSubscription(v: Outline)
  {
    IsRss(v) || v.cls == SubscriptionClass
  }

  /** The value with the type `add` assigns to it. */
  function Typed(v: Outline): Outline
  {
    v.(typ := Some(if AddsSubscription(v) then "rss" else "category"))
  }

  /** Whether child `c` keeps `v` out: the same feed URL among subscriptions, the same label among categories. */
  predicate Blocks(c: Outline, v: Outline)
  {
    if AddsSubscription(v) then (IsRss(c) || c.cls == SubscriptionClass) && c.feedUri == v.feedUri
    else (Type(c) == Some("category") || c.cls == CategoryClass) && c.text == v.text
  }

  predicate Blocked(cs: seq<Outline>, v: Outline)
  {
    exists i :: 0 <= i < |cs| && Blocks(cs[i], v)
  }

  /** The outcome of `add(v)` at time `now`: the new children, and the value as the caller sees it afterwards. */
  datatype Added = Added(children: seq<Outline>, value: Outline)

  function AddTo(cs: seq<Outline>, v: Outline, now: int): (r: Added)
  {
    var w := Typed(v);
    if Blocked(cs, v) then Added(cs, w)
    else var stamped := w.(createdAt := Some(now)); Added(cs + [stamped], stamped)
  }

  /** A `Subscription` whose type reads `'rss'`, a `Category` whose type reads `'category'`, or a plain outline. */
  predicate TypeAgrees(o: Outline)
  {
    (o.cls == SubscriptionClass ==> IsRss(o)) && (o.cls == CategoryClass ==> Type(o) == Some("category"))
  }

  /**
   * `add` appends the value, typed `'rss'` or `'category'` and stamped with
   * the time, unless a child already holds its feed URL or label; when the
   * children's types agree with their classes the value is in the set
   * afterwards either way, and adding it again changes nothing.
   */
  lemma AddMakesMember(cs: seq<Outline>, v: Outline, now: int, later: int)
    ensures var r := AddTo(cs, v, now);
            && r.value.typ == Some(if AddsSubscription(v) then "rss" else "category")
            && (Blocked(cs, v) <==> r.children == cs)
            && (!Blocked(cs, v) <==> r.children == cs + [r.value] && r.value.createdAt == Some(now))
            && ((forall j :: 0 <= j < |cs| ==> TypeAgrees(cs[j])) ==> Member(r.children, r.value))
            && AddTo(r.children, v, later).children == r.children
  {
    var r := AddTo(cs, v, now);
    if Blocked(cs, v) {
      var i :| 0 <= i < |cs| && Blocks(cs[i], v);
      assert TypeAgrees(cs[i]) ==> PyEq(r.value, cs[i]);
    } else {
      assert r.children[|cs|] == r.value;
      assert Blocks(r.children[|cs|], v);
      assert |r.children| != |cs|;
    }
  }

  /**
   * A `Category` child whose type was set to `'rss'` blocks a plain value
   * of type `'category'` with its label, yet compares by feed URL, so the
   * value is not in the set after `add`.
   */
  lemma AddBlockedNotMember(name: string, uri: string, now: int)
    ensures var c := Outline(CategoryClass, Some(name), Some("rss"), None, Some(uri), None, None, None, []);
            var v := Outline(PlainOutline, Some(name), Some("category"), None, None, None, None, None, []);
            AddTo([c], v, now).children == [c] && !Member([c], AddTo([c], v, now).value)
  {
    var c := Outline(CategoryClass, Some(name), Some("rss"), None, Some(uri), None, None, None, []);
    var v := Outline(PlainOutline, Some(name), Some("category"), None, None, None, None, None, []);
    assert Blocks([c][0], v);
  }

  // -------------------------------------------------------------- discard

  /** The children `discard(o)` leaves: those that do not compare equal to `o` (`child == o`). */
  function Without(cs: seq<Outline>, o: Outline): (r: seq<Outline>)
    ensures |r| <= |cs|
  {
    if cs == [] then []
    else (if PyEq(cs[0], o) then [] else [cs[0]]) + Without(cs[1..], o)
  }

  /** `discard` removes the children equal to `o` and keeps every other one. */
  lemma {:induction false} WithoutMembers(cs: seq<Outline>, o: Outline, x: Outline)
    ensures x in Without(cs, o) <==> x in cs && !PyEq(x, o)
  {
    if cs != [] {
      WithoutMembers(cs[1..], o, x);
      assert x in cs <==> x == cs[0] || x in cs[1..];
    }
  }

  lemma {:induction false} WithoutAppend(a: seq<Outline>, b: seq<Outline>, o: Outline)
    ensures Without(a + b, o) == Without(a, o) + Without(b, o)
  {
    if a != [] {
      assert (a + b)[1..] == a[1..] + b;
      WithoutAppend(a[1..], b, o);
    } else {
      assert a + b == b;
    }
  }

  /** Removing one equal child does not change what `discard` leaves. */
  lemma RemoveEqual(cs: seq<Outline>, k: nat, o: Outline)
    requires k < |cs| && PyEq(cs[k], o)
    ensures Without(cs[..k] + cs[k + 1..], o) == Without(cs, o)
  {
    assert cs == cs[..k] + ([cs[k]] + cs[k + 1..]);
    WithoutAppend(cs[..k], [cs[k]] + cs[k + 1..], o);
    WithoutAppend(cs[..k], cs[k + 1..], o);
    assert ([cs[k]] + cs[k + 1..])[1..] == cs[k + 1..];
  }

  /** Without an equal child there is nothing to discard. */
  lemma {:induction false} WithoutNothing(cs: seq<Outline>, o: Outline)
    requires forall i :: 0 <= i < |cs| ==> !PyEq(cs[i], o)
    ensures Without(cs, o) == cs
  {
    if cs != [] {
      WithoutNothing(cs[1..], o);
      assert [cs[0]] + cs[1..] == cs;
    }
  }

  /**
   * Discarding twice is discarding once; when the children compare with
   * `o` the same way round as `o` compares with them, `o` is no longer in
   * the set afterwards.
   */
  lemma DiscardRemoves(cs: seq<Outline>, o: Outline)
    ensures Without(Without(cs, o), o) == Without(cs, o)
    ensures (forall i :: 0 <= i < |cs| ==> PyEq(cs[i], o) == PyEq(o, cs[i])) ==> !Member(Without(cs, o), o)
  {
    var w := Without(cs, o);
    forall i | 0 <= i < |w|
      ensures w[i] in cs && !PyEq(w[i], o)
    {
      WithoutMembers(cs, o, w[i]);
    }
    WithoutNothing(w, o);
    if forall i :: 0 <= i < |cs| ==> PyEq(cs[i], o) == PyEq(o, cs[i]) {
      forall i | 0 <= i < |w|
        ensures !PyEq(o, w[i])
      {
        var j :| 0 <= j < |cs| && cs[j] == w[i];
      }
    }
  }

  /**
   * Discarding a category removes a plain child of type `'rss'` with the
   * same label: the category's `__eq__` runs, and it compares labels.
   */
  lemma DiscardCategoryByLabel(name: string, uri: string)
    ensures var child := Outline(PlainOutline, Some(name), Some("rss"), None, Some(uri), None, None, None, []);
            var category := Outline(CategoryClass, Some(name), None, None, None, None, None, None, []);
            Without([child], category) == [] && !Equal(child, category)
  {
  }

  /**
   * A plain outline of type `'category'` is in a set whose subscription
   * has its feed URL, whatever the labels: the subscription's `__eq__` runs.
   */
  lemma PlainFoundBySubscription(uri: string, x: string, y: string)
    requires x != y
    ensures var plain := Outline(PlainOutline, Some(x), Some("category"), None, Some(uri), None, None, None, []);
            var sub := Outline(SubscriptionClass, Some(y), None, None, Some(uri), None, None, None, []);
            In([sub], Instance(plain)) && !Equal(plain, sub)
  {
    var plain := Outline(PlainOutline, Some(x), Some("category"), None, Some(uri), None, None, None, []);
    var sub := Outline(SubscriptionClass, Some(y), None, None, Some(uri), None, None, None, []);
    assert PyEq(plain, [sub][0]);
  }

  /** `list.remove`'s scan: the first child equal to `o`, or `|cs|`. */
  method FirstEqual(cs: seq<Outline>, o: Outline) returns (k: nat)
    ensures k <= |cs|
    ensures forall j :: 0 <= j < k ==> !PyEq(cs[j], o)
    ensures k < |cs| ==> PyEq(cs[k], o)
  {
    k := 0;
    while k < |cs| && !PyEq(cs[k], o)
      invariant k <= |cs|
      invariant forall j :: 0 <= j < k ==> !PyEq(cs[j], o)
    {
      k := k + 1;
    }
  }

  // ----------------------------------------------- categories, subscriptions

  /** Outlines of one class keyed by slot value: the categories by label or the subscriptions by feed URL. */
  function Index(ys: seq<Outline>, cls: Class): (r: map<Option<string>, Outline>)
    decreases |ys|
  {
    if ys == [] then map[]
    else
      var last := ys[|ys| - 1];
      var m := Index(ys[..|ys| - 1], cls);
      if last.cls != cls then m
      else m[(if cls == SubscriptionClass then last.feedUri else last.text) := last]
  }

  /** `categories`: label to `Category` over what the iteration yields. */
  function Categories(cs: seq<Outline>, digest: string -> string): Result<map<Option<string>, Outline>>
  {
    if Stop(cs) < |cs| then Err(AttributeError) else Ok(Index(Yields(cs, |cs|, digest), CategoryClass))
  }

  /** `subscriptions`, keyed by feed URL. */
  function Subscriptions(cs: seq<Outline>, digest: string -> string): Result<map<Option<string>, Outline>>
  {
    if Stop(cs) < |cs| then Err(AttributeError) else Ok(Index(Yields(cs, |cs|, digest), SubscriptionClass))
  }

  /** The slot an upgraded outline takes, read from its class. */
  lemma ClassSlot(y: Outline)
    requires y.cls != PlainOutline
    ensures y.cls == SubscriptionClass ==> SlotOf(y) == FeedSlot(y.feedUri)
  {
  }

  /** What `Index` holds: exactly the slots of the outlines of that class, each under its own key. */
  lemma {:induction false} IndexKeys(ys: seq<Outline>, cls: Class, key: Option<string>)
    requires cls != PlainOutline
    requires forall k :: 0 <= k < |ys| ==> ys[k].cls != PlainOutline
    requires forall k :: 0 <= k < |ys| && ys[k].cls == CategoryClass ==> SlotOf(ys[k]) == LabelSlot(ys[k].text)
    ensures key in Index(ys, cls) <==>
            (if cls == SubscriptionClass then FeedSlot(key) else LabelSlot(key)) in Slots(ys)
    ensures key in Index(ys, cls) ==> Index(ys, cls)[key].cls == cls
    ensures key in Index(ys, cls) && cls == SubscriptionClass ==> Index(ys, cls)[key].feedUri == key
    ensures key in Index(ys, cls) && cls == CategoryClass ==> Index(ys, cls)[key].text == key
    decreases |ys|
  {
    if ys != [] {
      var last := ys[|ys| - 1];
      IndexKeys(ys[..|ys| - 1], cls, key);
      ClassSlot(last);
    }
  }

  /**
   * `categories` maps each label of a category-branch child to the
   * `Category` yielded for it, and `subscriptions` each feed URL of a
   * subscription-branch child to the `Subscription` yielded for it.
   */
  lemma CategoriesAndSubscriptions(cs: seq<Outline>, digest: string -> string, key: Option<string>)
    requires Stop(cs) == |cs|
    ensures key in Categories(cs, digest).value <==> LabelSlot(key) in Slots(cs)
    ensures key in Categories(cs, digest).value ==>
            Categories(cs, digest).value[key].cls == CategoryClass && Categories(cs, digest).value[key].text == key
    ensures key in Subscriptions(cs, digest).value <==> FeedSlot(key) in Slots(cs)
    ensures key in Subscriptions(cs, digest).value ==>
            Subscriptions(cs, digest).value[key].cls == SubscriptionClass && Subscriptions(cs, digest).value[key].feedUri == key
  {
    var ys := Yields(cs, |cs|, digest);
    YieldsOnePerSlot(cs, |cs|, digest);
    assert cs[..|cs|] == cs;
    forall k | 0 <= k < |ys| && ys[k].cls == CategoryClass
      ensures SlotOf(ys[k]) == LabelSlot(ys[k].text)
    {
      assert !SubscriptionBranch(ys[k]) by {
        assert Type(ys[k]) != Some("rss") || ys[k].typ.Some?;
        CategoryYield(cs, |cs|, digest, k);
      }
    }
    IndexKeys(ys, CategoryClass, key);
    IndexKeys(ys, SubscriptionClass, key);
  }

  /** A yielded `Category` is not on the subscription branch. */
  lemma {:induction false} CategoryYield(cs: seq<Outline>, n: nat, digest: string -> string, k: nat)
    requires n <= Stop(cs)
    requires k < |Yields(cs, n, digest)| && Yields(cs, n, digest)[k].cls == CategoryClass
    ensures !SubscriptionBranch(Yields(cs, n, digest)[k])
  {
    var ys := Yields(cs, n - 1, digest);
    if k < |ys| {
      CategoryYield(cs, n - 1, digest, k);
    }
  }

  // --------------------------------------------------- recursive_subscriptions

  /**
   * `recursive_subscriptions` over the first `n` children, keyed by feed
   * URL: a subscription the set already holds is kept, as `set.add` and
   * `set.update` keep the element already present.
   */
  function RecursiveFrom(cs: seq<Outline>, n: nat, digest: string -> string): Result<map<Option<string>, Outline>>
    requires n <= |cs|
    decreases cs, n
  {
    if n == 0 then Ok(map[])
    else match RecursiveFrom(cs, n - 1, digest)
      case Err(e) => Err(e)
      case Ok(acc) =>
        var o := cs[n - 1];
        if !First(cs, n - 1) then Ok(acc)
        else if !Promotable(o) then Err(AttributeError)
        else if SubscriptionBranch(o) then
          Ok(if o.feedUri in acc then acc else acc[o.feedUri := Promote(o, digest)])
        else match RecursiveFrom(o.children, |o.children|, digest)
          case Err(e) => Err(e)
          case Ok(inner) => Ok(inner + acc)
  }

  function RecursiveSubscriptions(cs: seq<Outline>, digest: string -> string): Result<map<Option<string>, Outline>>
  {
    RecursiveFrom(cs, |cs|, digest)
  }

  /** Whether feed URL `u` is subscribed to in the first `n` children or in a category among them, at any depth. */
  predicate SubscribedIn(cs: seq<Outline>, n: nat, u: Option<string>)
    requires n <= |cs|
    decreases cs, n
  {
    exists i :: 0 <= i < n && First(cs, i) &&
      (if SubscriptionBranch(cs[i]) then cs[i].feedUri == u
       else SubscribedIn(cs[i].children, |cs[i].children|, u))
  }

  /**
   * When it succeeds, `recursive_subscriptions` holds the direct
   * subscriptions together with those of every category at any depth,
   * each a `Subscription` under its own feed URL.
   */
  lemma {:induction false} RecursiveSubscriptionsUnion(cs: seq<Outline>, n: nat, digest: string -> string, u: Option<string>)
    requires n <= |cs| && RecursiveFrom(cs, n, digest).Ok?
    ensures u in RecursiveFrom(cs, n, digest).value <==> SubscribedIn(cs, n, u)
    ensures u in RecursiveFrom(cs, n, digest).value ==>
            RecursiveFrom(cs, n, digest).value[u].cls == SubscriptionClass
            && RecursiveFrom(cs, n, digest).value[u].feedUri == u
    decreases cs, n
  {
    if n > 0 {
      var o := cs[n - 1];
      RecursiveSubscriptionsUnion(cs, n - 1, digest, u);
      SubscribedInStep(cs, n, u);
      var acc := RecursiveFrom(cs, n - 1, digest).value;
      if First(cs, n - 1) && !SubscriptionBranch(o) {
        RecursiveSubscriptionsUnion(o.children, |o.children|, digest, u);
        assert RecursiveFrom(cs, n, digest).value == RecursiveFrom(o.children, |o.children|, digest).value + acc;
      } else if First(cs, n - 1) {
        assert RecursiveFrom(cs, n, digest).value ==
               if o.feedUri in acc then acc else acc[o.feedUri := Promote(o, digest)];
      } else {
        assert RecursiveFrom(cs, n, digest).value == acc;
      }
    }
  }

  /** `SubscribedIn` over one more child. */
  lemma SubscribedInStep(cs: seq<Outline>, n: nat, u: Option<string>)
    requires 0 < n <= |cs|
    ensures SubscribedIn(cs, n, u) <==>
            || SubscribedIn(cs, n - 1, u)
            || (First(cs, n - 1) &&
                (if SubscriptionBranch(cs[n - 1]) then cs[n - 1].feedUri == u
                 else SubscribedIn(cs[n - 1].children, |cs[n - 1].children|, u)))
  {
  }

  // ------------------------------------------------------------ head, body

  /** The `head` fields the accessors touch. */
  datatype Head = Head(title: Option<string>, ownerName: Option<string>, ownerEmail: Option<string>, ownerUri: Option<string>)

  /** The owner as `Person(name, email, uri)`. */
  datatype Person = Person(name: Option<string>, email: Option<string>, uri: Option<string>)

  /** A freshly made `Head()`. */
  const EmptyHead := Head(None, None, None, None)

  /** The `title` getter: `head and head.title`. */
  function TitleOf(head: Option<Head>): Option<string>
  {
    if head.None? then None else head.value.title
  }

  /** The `title` setter: makes a head when there is none. */
  function WithTitle(head: Option<Head>, title: Option<string>): Option<Head>
  {
    var h := if head.None? then EmptyHead else head.value;
    Some(h.(title := title))
  }

  /** The `owner` getter: None without a head or when all three owner fields are None. */
  function OwnerOf(head: Option<Head>): Option<Person>
  {
    if head.None? then None
    else
      var h := head.value;
      if h.ownerName.None? && h.ownerEmail.None? && h.ownerUri.None? then None
      else Some(Person(h.ownerName, h.ownerEmail, h.ownerUri))
  }

  /** The `owner` setter: clears the three fields for None, makes a head only when one is needed. */
  function WithOwner(head: Option<Head>, owner: Option<Person>): Option<Head>
  {
    if head.None? then
      if owner.None? then None
      else Some(EmptyHead.(ownerName := owner.value.name, ownerEmail := owner.value.email, ownerUri := owner.value.uri))
    else if owner.None? then
      Some(head.value.(ownerName := None, ownerEmail := None, ownerUri := None))
    else Some(head.value.(ownerName := owner.value.name, ownerEmail := owner.value.email, ownerUri := owner.value.uri))
  }

  /** The title reads back as set, and setting it leaves the owner alone. */
  lemma TitleRoundTrip(head: Option<Head>, title: Option<string>)
    ensures TitleOf(WithTitle(head, title)) == title
    ensures OwnerOf(WithTitle(head, title)) == OwnerOf(head)
  {
  }

  /**
   * The owner reads back as set, except that an owner with all three
   * fields None reads back as None; setting it leaves the title alone, and
   * setting None never creates a head.
   */
  lemma OwnerRoundTrip(head: Option<Head>, owner: Option<Person>)
    ensures OwnerOf(WithOwner(head, owner)) ==
            (if owner == Some(Person(None, None, None)) then None else owner)
    ensures TitleOf(WithOwner(head, owner)) == TitleOf(head)
    ensures owner.None? ==> (WithOwner(head, owner).None? <==> head.None?)
  {
  }

  // ----------------------------------------------------- the document class

  /** `SubscriptionList`: the OPML document whose body holds the top-level outlines. */
  class SubscriptionList {
    var head: Option<Head>
    var body: Option<seq<Outline>>

    /** The top-level outlines, empty while there is no body. */
    function Children(): seq<Outline>
      reads this
    {
      if body.Some? then body.value else []
    }

    constructor ()
      ensures head.None? && body.None?
    {
      head := None;
      body := None;
    }

    /** The `children` getter: makes an empty body on first use. */
    method GetChildren() returns (cs: seq<Outline>)
      modifies this
      ensures body.Some? && cs == Children() == old(Children())
      ensures head == old(head)
    {
      if body.None? {
        body := Some([]);
      }
      cs := body.value;
    }

    /** The `title` property. */
    function Title(): Option<string>
      reads this
    {
      TitleOf(head)
    }

    method SetTitle(title: Option<string>)
      modifies this
      ensures head == WithTitle(old(head), title) && body == old(body)
    {
      head := WithTitle(head, title);
    }

    /** The `owner` property. */
    function Owner(): Option<Person>
      reads this
    {
      OwnerOf(head)
    }

    method SetOwner(owner: Option<Person>)
      modifies this
      ensures head == WithOwner(old(head), owner) && body == old(body)
    {
      head := WithOwner(head, owner);
    }

    /**
     * `add(value)` at time `now`; the result is the value as the caller's
     * object reads afterwards (its type and, when appended, its time set).
     */
    method Add(value: Arg<Outline>, now: int) returns (r: Result<Outline>)
      modifies this
      ensures value.OtherType? ==> r == Err(TypeError) && body == old(body)
      ensures value.Instance? ==> body.Some?
                                  && Children() == AddTo(old(Children()), value.value, now).children
                                  && r == Ok(AddTo(old(Children()), value.value, now).value)
      ensures head == old(head)
    {
      if value.OtherType? {
        return Err(TypeError);
      }
      var v := value.value;
      var w := Typed(v);
      var cs := GetChildren();
      var i := 0;
      while i < |cs|
        invariant i <= |cs|
        invariant forall j :: 0 <= j < i ==> !Blocks(cs[j], v)
      {
        var outline := cs[i];
        if AddsSubscription(v) {
          if !(IsRss(outline) || outline.cls == SubscriptionClass) {
            i := i + 1;
            continue;
          }
          if outline.feedUri == v.feedUri {
            return Ok(w);
          }
        } else {
          if !(Type(outline) == Some("category") || outline.cls == CategoryClass) {
            i := i + 1;
            continue;
          }
          if outline.text == v.text {
            return Ok(w);
          }
        }
        i := i + 1;
      }
      var stamped := w.(createdAt := Some(now));
      body := Some(cs + [stamped]);
      r := Ok(stamped);
    }

    /** `discard(outline)`: `list.remove` until it finds no equal child. */
    method Discard(outline: Arg<Outline>) returns (r: Result<()>)
      modifies this
      ensures outline.OtherType? ==> r == Err(TypeError) && body == old(body)
      ensures outline.Instance? ==> r == Ok(()) && body.Some?
                                    && Children() == Without(old(Children()), outline.value)
      ensures head == old(head)
    {
      if outline.OtherType? {
        return Err(TypeError);
      }
      var o := outline.value;
      var cs := GetChildren();
      ghost var start := cs;
      while true
        invariant body.Some? && head == old(head)
        invariant Without(body.value, o) == Without(start, o)
        decreases |body.value|
      {
        var k := FirstEqual(body.value, o);
        if k == |body.value| {
          WithoutNothing(body.value, o);
          break;
        }
        RemoveEqual(body.value, k, o);
        body := Some(body.value[..k] + body.value[k + 1..]);
      }
      r := Ok(());
    }

    /**
     * A full pass of `__iter__`: the outlines yielded, and the error that
     * ends the pass early, if any.  Each first child is replaced in place
     * by its upgraded object up to the point where the pass stops.
     */
    method Iterate(digest: string -> string) returns (yielded: seq<Outline>, error: Option<Error>)
      modifies this
      ensures head == old(head) && body.Some?
      ensures error == (if Stop(old(Children())) < |old(Children())| then Some(AttributeError) else None)
      ensures PassedTo(old(Children()), Stop(old(Children())), yielded, Children(), digest)
    {
      var cs := GetChildren();
      var subscriptions: set<Option<string>> := {};
      var categories: set<Option<string>> := {};
      yielded := [];
      error := None;
      var i := 0;
      while i < |cs|
        invariant body.Some? && head == old(head)
        invariant Passing(cs, i, subscriptions, categories, yielded, body.value, digest)
      {
        var outline := body.value[i];
        FirstBySets(cs, i, subscriptions, categories, yielded, body.value, digest);
        if Type(outline) == Some("rss") || Truthy(outline.feedUri) || outline.cls == SubscriptionClass {
          if outline.feedUri in subscriptions {
            SkipStep(cs, i, subscriptions, categories, yielded, body.value, digest);
            i := i + 1;
            continue;
          }
          if outline.cls != SubscriptionClass && !Truthy(outline.feedId) && outline.feedUri.None? {
            StopsHere(cs, i, subscriptions, categories, yielded, body.value, digest);
            assert PassedTo(cs, Stop(cs), yielded, body.value, digest);
            error := Some(AttributeError);
            return;
          }
          var p := Promote(outline, digest);
          YieldStep(cs, i, subscriptions, categories, yielded, body.value, digest);
          subscriptions := subscriptions + {outline.feedUri};
          if outline.cls != SubscriptionClass {
            body := Some(body.value[i := p]);
          } else {
            assert body.value[i := p] == body.value;
          }
          yielded := yielded + [p];
        } else if outline.text in categories {
          SkipStep(cs, i, subscriptions, categories, yielded, body.value, digest);
          i := i + 1;
          continue;
        } else {
          var p := Promote(outline, digest);
          YieldStep(cs, i, subscriptions, categories, yielded, body.value, digest);
          categories := categories + {outline.text};
          if outline.cls != CategoryClass {
            body := Some(body.value[i := p]);
          } else {
            assert body.value[i := p] == body.value;
          }
          yielded := yielded + [p];
        }
        i := i + 1;
      }
      PassesAll(cs, i, subscriptions, categories, yielded, body.value, digest);
    }
  }

  /**
   * What a pass over the first `i` children of `cs` has produced: the
   * outlines yielded so far, and the children with the first `i` visited
   * and the rest as they were.
   */
  ghost predicate PassedTo(cs: seq<Outline>, i: nat, yielded: seq<Outline>, children: seq<Outline>, digest: string -> string)
  {
    && i <= Stop(cs) && |children| == |cs|
    && yielded == Yields(cs, i, digest)
    && (forall j :: 0 <= j < i ==> children[j] == Visited(cs, j, digest))
    && (forall j :: i <= j < |cs| ==> children[j] == cs[j])
  }

  /** The state of `__iter__` after passing the first `i` children of `cs`, with its two seen-sets. */
  ghost predicate Passing(cs: seq<Outline>, i: nat, subscriptions: set<Option<string>>, categories: set<Option<string>>,
                          yielded: seq<Outline>, children: seq<Outline>, digest: string -> string)
  {
    && PassedTo(cs, i, yielded, children, digest)
    && (forall u :: u in subscriptions <==> FeedSlot(u) in Slots(cs[..i]))
    && (forall l :: l in categories <==> LabelSlot(l) in Slots(cs[..i]))
  }

  /** A pass that reaches the end of the children did not stop early. */
  lemma PassesAll(cs: seq<Outline>, i: nat, subscriptions: set<Option<string>>, categories: set<Option<string>>,
                  yielded: seq<Outline>, children: seq<Outline>, digest: string -> string)
    requires Passing(cs, i, subscriptions, categories, yielded, children, digest) && i == |cs|
    ensures Stop(cs) == |cs| && PassedTo(cs, Stop(cs), yielded, children, digest)
  {
  }

  /** The two seen-sets tell whether the next child is the first of its slot. */
  lemma FirstBySets(cs: seq<Outline>, i: nat, subscriptions: set<Option<string>>, categories: set<Option<string>>,
                    yielded: seq<Outline>, children: seq<Outline>, digest: string -> string)
    requires Passing(cs, i, subscriptions, categories, yielded, children, digest) && i < |cs|
    ensures children[i] == cs[i]
    ensures First(cs, i) <==> if SubscriptionBranch(cs[i]) then cs[i].feedUri !in subscriptions
                              else cs[i].text !in categories
  {
  }

  /** A child that is not first is passed over. */
  lemma SkipStep(cs: seq<Outline>, i: nat, subscriptions: set<Option<string>>, categories: set<Option<string>>,
                 yielded: seq<Outline>, children: seq<Outline>, digest: string -> string)
    requires Passing(cs, i, subscriptions, categories, yielded, children, digest) && i < |cs|
    requires !First(cs, i)
    ensures Passing(cs, i + 1, subscriptions, categories, yielded, children, digest)
  {
    SlotsStep(cs, i);
    assert Slots(cs[..i + 1]) == Slots(cs[..i]);
    PassesStop(cs, i);
    assert Yields(cs, i + 1, digest) == yielded + [] == yielded;
  }

  /** A child that does not stop the pass leaves the stop ahead. */
  lemma PassesStop(cs: seq<Outline>, i: nat)
    requires i <= Stop(cs) && i < |cs|
    requires First(cs, i) ==> Promotable(cs[i])
    ensures i + 1 <= Stop(cs)
  {
  }

  /** A first child that cannot be upgraded is where the pass stops. */
  lemma StopsHere(cs: seq<Outline>, i: nat, subscriptions: set<Option<string>>, categories: set<Option<string>>,
                  yielded: seq<Outline>, children: seq<Outline>, digest: string -> string)
    requires Passing(cs, i, subscriptions, categories, yielded, children, digest) && i < |cs|
    requires First(cs, i) && !Promotable(cs[i])
    ensures Stop(cs) == i
  {
  }

  /** A first child that can be upgraded is yielded and stored back upgraded. */
  lemma YieldStep(cs: seq<Outline>, i: nat, subscriptions: set<Option<string>>, categories: set<Option<string>>,
                  yielded: seq<Outline>, children: seq<Outline>, digest: string -> string)
    requires Passing(cs, i, subscriptions, categories, yielded, children, digest) && i < |cs|
    requires First(cs, i) && Promotable(cs[i])
    ensures var p := Promote(cs[i], digest);
            Passing(cs, i + 1,
                    if SubscriptionBranch(cs[i]) then subscriptions + {cs[i].feedUri} else subscriptions,
                    if SubscriptionBranch(cs[i]) then categories else categories + {cs[i].text},
                    yielded + [p], children[i := p], digest)
  {
    SlotsStep(cs, i);
    PassesStop(cs, i);
  }
}
