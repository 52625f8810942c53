/**
 * The parts of parser/rss_base.py that both RSS 1.0 and RSS 2.0 parsing
 * share: the element parsers that build a link or a text construct from an
 * element's text, and `make_legal_as_atom`, which fills in what sections
 * 4.1.1 and 4.1.2 of RFC 4287 require of `atom:feed` and `atom:entry`
 * (an id, an update time, a title and a `self` link) once an RSS feed has
 * been read.
 *
 * `make_legal_as_atom` changes the feed object and its entry objects in
 * place, so both are classes here.  A datetime is represented by the
 * instant it denotes (an `int`), which is what `max` compares; the current
 * time is a parameter.
 */
module RssBase {
  import opened Wrappers

  /** A link construct: its uri, its `rel` and its media type. */
  datatype Link = Link(uri: string, relation: Option<string>, mimetype: Option<string>)

  /** A text construct: its optional `type` and its value. */
  datatype Text = Text(kind: Option<string>, value: string)

  // ---------------------------------------------------------------------
  // Element parsers

  /**
   * `link_parser`: an element with no text (or empty text) gives no link;
   * any other text is the uri of an alternate `text/html` link.
   */
  function ParseLink(text: Option<string>): (r: Option<Link>)
    ensures r.None? <==> text.None? || text.value == ""
    ensures r.Some? ==> Some(r.value.uri) == text
    ensures r.Some? ==> r.value.relation == Some("alternate") && r.value.mimetype == Some("text/html")
  {
    match text
    case None => None
    case Some(t) => if t == "" then None else Some(Link(t, Some("alternate"), Some("text/html")))
  }

  /** `text_parser`: a text construct whose value is the text, `''` when there is none. */
  function ParseText(text: Option<string>): (r: Text)
    ensures r.kind.None?
    ensures text.Some? ==> r.value == text.value
    ensures text.None? ==> r.value == ""
  {
    Text(None, match text case None => "" case Some(t) => t)
  }

  // ---------------------------------------------------------------------
  // What make_legal_as_atom computes, as functions of the values it reads

  /** `not feed_data.id`: no id, or an empty one. */
  predicate Blank(id: Option<string>)
  {
    id.None? || id.value == ""
  }

  /** The feed id after the fix: `feed_url` replaces a blank id. */
  function FeedId(id: Option<string>, feedUrl: string): (r: Option<string>)
    ensures feedUrl != "" ==> !Blank(r)
    ensures !Blank(id) ==> r == id
    ensures Blank(id) ==> r == Some(feedUrl)
  {
    if Blank(id) then Some(feedUrl) else id
  }

  /** Some link of `links` has the relation `self`. */
  predicate HasSelf(links: seq<Link>)
  {
    exists i :: 0 <= i < |links| && links[i].relation == Some("self")
  }

  /**
   * The feed links after the fix: a `self` link to `feedUrl` goes in front
   * when there is none; otherwise nothing changes.
   */
  function WithSelf(links: seq<Link>, feedUrl: string): (r: seq<Link>)
    ensures HasSelf(r)
    ensures HasSelf(links) ==> r == links
    ensures !HasSelf(links) ==> r == [Link(feedUrl, Some("self"), None)] + links
  {
    if HasSelf(links) then links
    else
      var r := [Link(feedUrl, Some("self"), None)] + links;
      assert r[0].relation == Some("self");
      r
  }

  /** An entry's update time after the first pass: its publication time stands in for a missing one. */
  function Dated(updated: Option<int>, published: Option<int>): (r: Option<int>)
    ensures updated.Some? ==> r == updated
    ensures updated.None? ==> r == published
  {
    if updated.None? then published else updated
  }

  /** An entry's id after the fix: a missing id becomes the first link's uri, or `''`. */
  function EntryId(id: Option<string>, links: seq<Link>): (r: Option<string>)
    ensures r.Some?
    ensures id.Some? ==> r == id
    ensures id.None? && links != [] ==> r == Some(links[0].uri)
    ensures id.None? && links == [] ==> r == Some("")
  {
    if id.Some? then id else if links == [] then Some("") else Some(links[0].uri)
  }

  /** The later of two optional instants; a missing one loses, and the first wins a tie. */
  function Later(a: Option<int>, b: Option<int>): (r: Option<int>)
    ensures r == a || r == b
    ensures r.None? <==> a.None? && b.None?
    ensures a.Some? ==> r.Some? && a.value <= r.value
    ensures b.Some? ==> r.Some? && b.value <= r.value
  {
    if a.None? then b
    else if b.None? then a
    else if b.value > a.value then b
    else a
  }

  /**
   * `max(t for t in times if t)`, with `None` where Python raises
   * `ValueError` because nothing is left after the filter.
   */
  function Latest(times: seq<Option<int>>): (r: Option<int>)
    ensures r.None? <==> forall i :: 0 <= i < |times| ==> times[i].None?
    ensures r.Some? ==> exists i :: 0 <= i < |times| && times[i] == r
    ensures forall i :: 0 <= i < |times| && times[i].Some? ==> r.Some? && times[i].value <= r.value
  {
    if times == [] then None
    else
      var rest := Latest(times[1..]);
      var r := Later(times[0], rest);
      assert forall i :: 1 <= i < |times| ==> times[i] == times[1..][i - 1];
      assert r == rest && rest.Some? ==> exists i :: 1 <= i < |times| && times[i] == r;
      r
  }

  /**
   * The feed's update time after the fix: kept when present, else the
   * latest entry time, else the current time.
   */
  function FeedUpdated(updated: Option<int>, times: seq<Option<int>>, now: int): (r: Option<int>)
    ensures r.Some?
    ensures updated.Some? ==> r == updated
    ensures updated.None? && Latest(times).Some? ==> r == Latest(times)
    ensures updated.None? && Latest(times).None? ==> r == Some(now)
  {
    if updated.Some? then updated
    else if Latest(times).Some? then Latest(times)
    else Some(now)
  }

  /**
   * What an entry gets in the `except ValueError` branch: the current time
   * when the feed had no update time and no entry had one either; `None`
   * (nothing) otherwise.
   */
  function Fallback(updated: Option<int>, times: seq<Option<int>>, now: int): (r: Option<int>)
    ensures r.Some? <==> updated.None? && Latest(times).None?
    ensures r.Some? ==> r == Some(now) == FeedUpdated(updated, times, now)
  {
    if updated.None? && Latest(times).None? then Some(now) else None
  }

  /** An entry's update time at the end: `Dated`, or the fallback where that is still missing. */
  function EntryUpdated(updated: Option<int>, published: Option<int>, fallback: Option<int>): (r: Option<int>)
    ensures Dated(updated, published).Some? ==> r == Dated(updated, published)
    ensures Dated(updated, published).None? ==> r == fallback
  {
    if Dated(updated, published).None? then fallback else Dated(updated, published)
  }

  /** The feed title after the fix: the subtitle stands in for a missing title. */
  function Title(title: Option<Text>, subtitle: Option<Text>): (r: Option<Text>)
    ensures title.Some? ==> r == title
    ensures title.None? ==> r == subtitle
    ensures r.None? <==> title.None? && subtitle.None?
  {
    if title.None? then subtitle else title
  }

  // ---------------------------------------------------------------------
  // Properties of the fix

  /** Each piece of the fix is idempotent: a second pass changes nothing. */
  lemma FixIdempotent(id: Option<string>, links: seq<Link>, feedUrl: string,
                      updated: Option<int>, published: Option<int>,
                      title: Option<Text>, subtitle: Option<Text>)
    ensures FeedId(FeedId(id, feedUrl), feedUrl) == FeedId(id, feedUrl)
    ensures WithSelf(WithSelf(links, feedUrl), feedUrl) == WithSelf(links, feedUrl)
    ensures Dated(Dated(updated, published), published) == Dated(updated, published)
    ensures EntryId(EntryId(id, links), links) == EntryId(id, links)
    ensures Title(Title(title, subtitle), subtitle) == Title(title, subtitle)
  {
  }

  /** Every entry ends with an update time no later than the feed's. */
  lemma {:induction false} EntriesNoLaterThanFeed(updated: Option<int>, times: seq<Option<int>>, now: int, i: nat)
    requires updated.None?
    requires i < |times|
    ensures var t := EntryUpdated(times[i], None, Fallback(updated, times, now));
      t.Some? ==> t.value <= FeedUpdated(updated, times, now).value
  {
  }

  /**
   * When the feed has its own update time, an entry with neither an update
   * nor a publication time is left without one, which section 4.1.2 of
   * RFC 4287 does not allow.
   */
  lemma UndatedEntryRemains(feedUpdated: int, times: seq<Option<int>>, now: int)
    ensures EntryUpdated(None, None, Fallback(Some(feedUpdated), times, now)) == None
  {
  }

  /**
   * The same happens when another entry of the feed has an update time:
   * the current time is only handed out when no entry has one.
   */
  lemma UndatedBesideDated(t: int, now: int)
    ensures Fallback(None, [Some(t), None], now) == None
    ensures EntryUpdated(None, None, Fallback(None, [Some(t), None], now)) == None
    ensures FeedUpdated(None, [Some(t), None], now) == Some(t)
  {
    assert Latest([Some(t), None]).Some?;
  }

  // ---------------------------------------------------------------------
  // The entries as values

  /** The fields of one entry that make_legal_as_atom reads or fills. */
  datatype EntryState = EntryState(id: Option<string>, links: seq<Link>,
                                   updatedAt: Option<int>, publishedAt: Option<int>)

  /** Each entry's update time with the publication time standing in for a missing one. */
  function DatedTimes(states: seq<EntryState>): (r: seq<Option<int>>)
    ensures |r| == |states|
    ensures forall i :: 0 <= i < |states| ==> r[i] == Dated(states[i].updatedAt, states[i].publishedAt)
  {
    seq(|states|, i requires 0 <= i < |states| => Dated(states[i].updatedAt, states[i].publishedAt))
  }

  /** One entry once fixed, given what the feed hands out to entries left without an update time. */
  function FixedEntry(s: EntryState, fallback: Option<int>): (r: EntryState)
    ensures r.id.Some? && r.links == s.links && r.publishedAt == s.publishedAt
    ensures s.id.Some? ==> r.id == s.id
    ensures s.updatedAt.Some? ==> r.updatedAt == s.updatedAt
  {
    EntryState(EntryId(s.id, s.links), s.links, EntryUpdated(s.updatedAt, s.publishedAt, fallback), s.publishedAt)
  }

  /** Every entry fixed. */
  function FixedEntries(states: seq<EntryState>, fallback: Option<int>): (r: seq<EntryState>)
    ensures |r| == |states|
    ensures forall i :: 0 <= i < |states| ==> r[i] == FixedEntry(states[i], fallback)
  {
    seq(|states|, i requires 0 <= i < |states| => FixedEntry(states[i], fallback))
  }

  /** The `except ValueError` loop on values: each missing update time becomes `now`. */
  function NowFilled(states: seq<EntryState>, now: int): (r: seq<EntryState>)
    ensures |r| == |states|
    ensures forall i :: 0 <= i < |states| ==>
              r[i] == states[i].(updatedAt := if states[i].updatedAt.None? then Some(now) else states[i].updatedAt)
  {
    seq(|states|, i requires 0 <= i < |states| =>
          states[i].(updatedAt := if states[i].updatedAt.None? then Some(now) else states[i].updatedAt))
  }

  /**
   * The first pass followed by the `except` loop is the fix with `now` as
   * the fallback; the first pass alone is the fix with no fallback.
   */
  lemma {:induction false} FirstPassThenNow(states: seq<EntryState>, now: int)
    ensures NowFilled(FixedEntries(states, None), now) == FixedEntries(states, Some(now))
  {
    var a := NowFilled(FixedEntries(states, None), now);
    var b := FixedEntries(states, Some(now));
    forall i | 0 <= i < |states|
      ensures a[i] == b[i]
    {
      var s := states[i];
      assert FixedEntries(states, None)[i] == FixedEntry(s, None);
    }
  }

  /**
   * After the fix every entry has an update time exactly when the feed had
   * to fall back to `now`, or the entry had an update or publication time.
   */
  lemma {:induction false} FixedEntriesDated(updated: Option<int>, states: seq<EntryState>, now: int, i: nat)
    requires i < |states|
    ensures var fixed := FixedEntries(states, Fallback(updated, DatedTimes(states), now));
      fixed[i].updatedAt.Some? <==>
        (updated.None? && Latest(DatedTimes(states)).None?) || states[i].updatedAt.Some? || states[i].publishedAt.Some?
  {
    var times := DatedTimes(states);
    assert times[i] == Dated(states[i].updatedAt, states[i].publishedAt);
  }

  // ---------------------------------------------------------------------
  // The objects make_legal_as_atom changes

  /** An entry: the fields that make_legal_as_atom reads or fills. */
  class Entry {
    var id: Option<string>
    var links: seq<Link>
    var updatedAt: Option<int>
    var publishedAt: Option<int>

    constructor(id: Option<string>, links: seq<Link>, updatedAt: Option<int>, publishedAt: Option<int>)
      ensures State() == EntryState(id, links, updatedAt, publishedAt)
    {
      this.id := id;
      this.links := links;
      this.updatedAt := updatedAt;
      this.publishedAt := publishedAt;
    }

    /** The entry's fields as a value. */
    function State(): EntryState
      reads this
    {
      EntryState(id, links, updatedAt, publishedAt)
    }
  }

  /** The fields of each entry, in order. */
  function States(entries: seq<Entry>): (r: seq<EntryState>)
    reads entries
    ensures |r| == |entries|
    ensures forall i :: 0 <= i < |entries| ==> r[i] == entries[i].State()
  {
    seq(|entries|, i requires 0 <= i < |entries| reads entries => entries[i].State())
  }

  /** The parsed feed: the fields that make_legal_as_atom reads or fills. */
  class FeedData {
    var id: Option<string>
    var links: seq<Link>
    var entries: seq<Entry>
    var updatedAt: Option<int>
    var title: Option<Text>
    var subtitle: Option<Text>

    constructor(id: Option<string>, links: seq<Link>, entries: seq<Entry>,
                updatedAt: Option<int>, title: Option<Text>, subtitle: Option<Text>)
      ensures this.id == id && this.links == links && this.entries == entries
      ensures this.updatedAt == updatedAt && this.title == title && this.subtitle == subtitle
    {
      this.id := id;
      this.links := links;
      this.entries := entries;
      this.updatedAt := updatedAt;
      this.title := title;
      this.subtitle := subtitle;
    }

    /**
     * `make_legal_as_atom(feed_data, session)`: fills the feed id, the
     * `self` link, each entry's id and update time, the feed's update time
     * and the title, as the functions above say.  The same entry object may
     * appear more than once in `entries`.
     */
    method MakeLegalAsAtom(feedUrl: string, now: int)
      modifies this, entries
      ensures entries == old(entries) && subtitle == old(subtitle)
      ensures id == FeedId(old(id), feedUrl)
      ensures links == WithSelf(old(links), feedUrl)
      ensures updatedAt == FeedUpdated(old(updatedAt), DatedTimes(old(States(entries))), now)
      ensures title == Title(old(title), old(subtitle))
      ensures States(entries) == FixedEntries(old(States(entries)),
                                              Fallback(old(updatedAt), DatedTimes(old(States(entries))), now))
    {
      if Blank(id) {
        id := Some(feedUrl);
      }
      if !HasSelf(links) {
        links := [Link(feedUrl, Some("self"), None)] + links;
      }
      ghost var before := States(entries);
      assert before == old(States(entries));
      DateAndIdentify();
      FixUpdated(now, before);
      if title.None? {
        title := subtitle;
      }
    }

    /**
     * The feed's update time: kept, else the latest entry time, else `now`,
     * which then also goes to every entry still without one.  `before` is
     * what the entries held before the first pass.
     */
    method FixUpdated(now: int, ghost before: seq<EntryState>)
      requires States(entries) == FixedEntries(before, None)
      modifies this, entries
      ensures entries == old(entries) && id == old(id) && links == old(links)
      ensures title == old(title) && subtitle == old(subtitle)
      ensures updatedAt == FeedUpdated(old(updatedAt), DatedTimes(before), now)
      ensures States(entries) == FixedEntries(before, Fallback(old(updatedAt), DatedTimes(before), now))
    {
      assert Times(entries) == DatedTimes(before) by {
        forall i | 0 <= i < |entries|
          ensures Times(entries)[i] == DatedTimes(before)[i]
        {
          assert entries[i].State() == FixedEntry(before[i], None);
        }
      }
      if updatedAt.None? {
        if entries != [] {
          var latest := Latest(Times(entries));
          if latest.Some? {
            updatedAt := latest;
          } else {
            updatedAt := Some(now);
            FillMissing(now);
            FirstPassThenNow(before, now);
          }
        } else {
          updatedAt := Some(now);
        }
      }
    }

    /**
     * The loop over the entries: a missing update time becomes the
     * publication time, a missing id the first link's uri or `''`.
     */
    method DateAndIdentify()
      modifies entries
      ensures States(entries) == FixedEntries(old(States(entries)), None)
    {
      var i := 0;
      while i < |entries|
        invariant 0 <= i <= |entries|
        invariant forall e :: e in entries ==> e.links == old(e.links) && e.publishedAt == old(e.publishedAt)
        invariant forall e :: e in entries ==>
                    (e.updatedAt == old(e.updatedAt) || e.updatedAt == Dated(old(e.updatedAt), old(e.publishedAt)))
                    && (e.id == old(e.id) || e.id == EntryId(old(e.id), old(e.links)))
        invariant forall j :: 0 <= j < i ==> entries[j].State() == FixedEntry(old(entries[j].State()), None)
      {
        var entry := entries[i];
        if entry.updatedAt.None? {
          entry.updatedAt := entry.publishedAt;
        }
        if entry.id.None? {
          entry.id := if entry.links == [] then Some("") else Some(entry.links[0].uri);
        }
        i := i + 1;
      }
    }

    /** The `except ValueError` loop: every entry still without an update time gets `now`. */
    method FillMissing(now: int)
      modifies entries
      ensures States(entries) == NowFilled(old(States(entries)), now)
    {
      var i := 0;
      while i < |entries|
        invariant 0 <= i <= |entries|
        invariant forall e :: e in entries ==>
                    e.id == old(e.id) && e.links == old(e.links) && e.publishedAt == old(e.publishedAt)
                    && (e.updatedAt == old(e.updatedAt) || (old(e.updatedAt).None? && e.updatedAt == Some(now)))
        invariant forall j :: 0 <= j < i ==>
                    entries[j].updatedAt == (if old(entries[j].updatedAt).None? then Some(now) else old(entries[j].updatedAt))
      {
        var entry := entries[i];
        if entry.updatedAt.None? {
          entry.updatedAt := Some(now);
        }
        i := i + 1;
      }
    }
  }

  /** The update times of `entries`, as they are. */
  function Times(entries: seq<Entry>): (r: seq<Option<int>>)
    reads entries
    ensures |r| == |entries|
    ensures forall i :: 0 <= i < |entries| ==> r[i] == entries[i].updatedAt
  {
    seq(|entries|, i requires 0 <= i < |entries| reads entries => entries[i].updatedAt)
  }
}
