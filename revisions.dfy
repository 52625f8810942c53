/**
 * Revisions: session identifiers, `(session, updated_at)` pairs, revision
 * sets and their text codecs.  A session is named by its identifier (the
 * pool in `Sessions` keeps one session object per identifier, so identity
 * and identifier equality coincide), and a time by its instant in
 * microseconds since 0001-01-01T00:00:00Z, which is how aware `datetime`
 * values compare.
 */
module Revisions {
  import opened Wrappers
  import opened Strings
  import opened Calendar
  import opened Tz
  import opened DateTimes
  import Rfc3339

  // ---------------------------------------------------------- identifiers

  /** The characters `[-a-z0-9_.]` admits, with ASCII letters of either case. */
  predicate IdentifierChar(c: char)
  {
    IsAsciiLetter(c) || IsDigit(c) || c == '-' || c == '_' || c == '.'
  }

  /** The intended identifier syntax: one or more of those characters and nothing else. */
  predicate ValidIdentifier(s: string)
  {
    |s| >= 1 && forall i :: 0 <= i < |s| ==> IdentifierChar(s[i])
  }

  /**
   * `IDENTIFIER_PATTERN.match(s)` as written: the pattern ends in `$`,
   * which also matches just before a newline that ends the text.
   */
  predicate ValidIdentifierAsWritten(s: string)
  {
    ValidIdentifier(s) || (|s| >= 2 && s[|s| - 1] == '\n' && ValidIdentifier(s[..|s| - 1]))
  }

  /** An intended identifier is one word without commas. */
  lemma IdentifierShape(s: string)
    requires ValidIdentifier(s)
    ensures s != [] && NoSpace(s) && ',' !in s
  {
    forall i | 0 <= i < |s| ensures !IsSpace(s[i]) && s[i] != ',' {
      assert IdentifierChar(s[i]);
    }
  }

  // ------------------------------------------------------------ revisions

  /** `Revision(session, updated_at)`. */
  datatype Revision = Revision(session: string, updatedAt: int)

  /** `RevisionSet`: the latest known time of each session. */
  type RevisionSet = map<string, int>

  /** Every time in the set is one a `datetime` can hold. */
  predicate ValidTimes(rs: RevisionSet)
  {
    forall s :: s in rs ==> ValidInstant(rs[s])
  }

  /** The sessions the pairs name. */
  function Sessions(pairs: seq<Revision>): set<string>
  {
    set p | p in pairs :: p.session
  }

  /** No two pairs name the same session. */
  predicate DistinctSessions(pairs: seq<Revision>)
  {
    forall i, j :: 0 <= i < j < |pairs| ==> pairs[i].session != pairs[j].session
  }

  /**
   * `RevisionSet(pairs)`, built with `dict`: every session named by a
   * pair, with the time of the last pair that names it.
   */
  function FromPairs(pairs: seq<Revision>): (r: RevisionSet)
    ensures r.Keys == Sessions(pairs)
    ensures forall s :: s in r ==> Revision(s, r[s]) in pairs
    ensures pairs != [] ==> r[pairs[|pairs| - 1].session] == pairs[|pairs| - 1].updatedAt
  {
    if pairs == [] then map[]
    else
      var init := pairs[..|pairs| - 1];
      var last := pairs[|pairs| - 1];
      assert pairs == init + [last];
      FromPairs(init)[last.session := last.updatedAt]
  }

  /** `RevisionSet.contains(revision)`: the set already holds that revision or a later one. */
  predicate Contains(rs: RevisionSet, rev: Revision)
  {
    rev.session in rs && rs[rev.session] >= rev.updatedAt
  }

  /** `a` holds every revision `b` holds. */
  predicate Covers(a: RevisionSet, b: RevisionSet)
  {
    forall s :: s in b ==> Contains(a, Revision(s, b[s]))
  }

  /** The merge of two sets: every session of either, with the later of its times. */
  function Union(a: RevisionSet, b: RevisionSet): (r: RevisionSet)
    ensures r.Keys == a.Keys + b.Keys
    ensures Covers(r, a) && Covers(r, b)
    ensures forall s :: s in r ==> (s in a && r[s] == a[s]) || (s in b && r[s] == b[s])
  {
    map s | s in a.Keys + b.Keys :: if s in a && (s !in b || a[s] >= b[s]) then a[s] else b[s]
  }

  /** The merge of any number of sets. */
  function UnionAll(sets: seq<RevisionSet>): (r: RevisionSet)
    ensures forall k :: 0 <= k < |sets| ==> Covers(r, sets[k])
    ensures forall s :: s in r ==> exists k :: 0 <= k < |sets| && s in sets[k] && r[s] == sets[k][s]
  {
    if sets == [] then map[]
    else
      var rest := UnionAll(sets[1..]);
      var r := Union(sets[0], rest);
      assert forall k :: 1 <= k < |sets| ==> sets[k] == sets[1..][k - 1];
      r
  }

  /**
   * `self.merge(*sets)`: a `TypeError` when no set is given or when one of
   * them is not a `RevisionSet`; otherwise every session of any of the sets
   * and of `self`, with its latest time.
   */
  function Merge(self: RevisionSet, sets: seq<Arg<RevisionSet>>): (r: Result<RevisionSet>)
    ensures r.Err? <==> sets == [] || exists i :: 0 <= i < |sets| && sets[i].OtherType?
    ensures r.Err? ==> r.error == TypeError
    ensures r.Ok? ==> Covers(r.value, self)
                      && (forall i :: 0 <= i < |sets| ==> Covers(r.value, sets[i].value))
    ensures r.Ok? ==> forall s :: s in r.value ==>
                        (s in self && r.value[s] == self[s])
                        || exists i :: 0 <= i < |sets| && s in sets[i].value && r.value[s] == sets[i].value[s]
  {
    if sets == [] || exists i :: 0 <= i < |sets| && sets[i].OtherType? then Err(TypeError)
    else
      var vals := Values(sets);
      var r := Union(UnionAll(vals), self);
      UnionAllAndLast(vals, self);
      Ok(r)
  }

  /** The sets the arguments hold. */
  function Values(sets: seq<Arg<RevisionSet>>): (r: seq<RevisionSet>)
    requires forall i :: 0 <= i < |sets| ==> sets[i].Instance?
    ensures |r| == |sets| && forall i :: 0 <= i < |sets| ==> r[i] == sets[i].value
  {
    seq(|sets|, i requires 0 <= i < |sets| => sets[i].value)
  }

  /** The merge of some sets and one more covers each of them, and takes each time from one of them. */
  lemma UnionAllAndLast(vals: seq<RevisionSet>, last: RevisionSet)
    ensures var r := Union(UnionAll(vals), last);
            Covers(r, last) && (forall i :: 0 <= i < |vals| ==> Covers(r, vals[i]))
            && forall s :: s in r ==>
                 (s in last && r[s] == last[s])
                 || exists i :: 0 <= i < |vals| && s in vals[i] && r[s] == vals[i][s]
  {
    var u := UnionAll(vals);
    var r := Union(u, last);
    forall i | 0 <= i < |vals| ensures Covers(r, vals[i]) {
      CoversTransitive(r, u, vals[i]);
    }
  }

  /** Covering is transitive. */
  lemma CoversTransitive(a: RevisionSet, b: RevisionSet, c: RevisionSet)
    requires Covers(a, b) && Covers(b, c)
    ensures Covers(a, c)
  {
    forall s | s in c ensures Contains(a, Revision(s, c[s])) {
      assert Contains(b, Revision(s, c[s]));
      assert Contains(a, Revision(s, b[s]));
    }
  }

  // ------------------------------------------------------------- algebra

  lemma UnionCommutative(a: RevisionSet, b: RevisionSet)
    ensures Union(a, b) == Union(b, a)
  {
  }

  lemma UnionAssociative(a: RevisionSet, b: RevisionSet, c: RevisionSet)
    ensures Union(Union(a, b), c) == Union(a, Union(b, c))
  {
  }

  lemma UnionIdempotent(a: RevisionSet)
    ensures Union(a, a) == a
  {
  }

  /** The merge is the least set that covers both: any set covering both covers it. */
  lemma UnionLeast(a: RevisionSet, b: RevisionSet, c: RevisionSet)
    requires Covers(c, a) && Covers(c, b)
    ensures Covers(c, Union(a, b))
  {
  }

  /** A merged set holds a revision exactly when one of its parts does. */
  lemma ContainsUnion(a: RevisionSet, b: RevisionSet, rev: Revision)
    ensures Contains(Union(a, b), rev) <==> Contains(a, rev) || Contains(b, rev)
  {
  }

  /** `s.merge(s) == s`. */
  lemma MergeSelf(s: RevisionSet)
    ensures Merge(s, [Instance(s)]) == Ok(s)
  {
    var sets := [Instance(s)];
    assert sets[0].Instance? && sets[0].value == s;
    var m := Merge(s, sets);
    assert m.Ok?;
    forall k | k in m.value ensures k in s && m.value[k] == s[k] {
      OnlyIndex(sets, k, m.value[k]);
    }
    CoveredBy(m.value, s);
  }

  lemma OnlyIndex(sets: seq<Arg<RevisionSet>>, k: string, t: int)
    requires |sets| == 1 && sets[0].Instance?
    ensures (exists i :: 0 <= i < |sets| && k in sets[i].value && t == sets[i].value[k])
            ==> k in sets[0].value && t == sets[0].value[k]
  {
  }

  /** A set that covers `s` and holds nothing but entries of `s` is `s`. */
  lemma CoveredBy(r: RevisionSet, s: RevisionSet)
    requires Covers(r, s)
    requires forall k :: k in r ==> k in s && r[k] == s[k]
    ensures r == s
  {
    forall k | k in s ensures k in r {
      assert Contains(r, Revision(k, s[k]));
    }
    assert r.Keys == s.Keys;
  }

  // ---------------------------------------------------------- revision pairs

  /** The objects `ensure_revision_pair` tells apart. */
  datatype Obj = SessionObj(identifier: string) | TimeObj(time: DateTime) | OtherObj

  /** The argument of `ensure_revision_pair`: an iterable of objects, or something that cannot be unpacked. */
  datatype PairArg = Iterable(items: seq<Obj>) | NotIterable

  /**
   * `ensure_revision_pair(pair)`: a `TypeError` unless the pair unpacks
   * into a session and a `datetime`.
   */
  function EnsureRevisionPair(pair: PairArg): (r: Result<(string, DateTime)>)
    ensures r.Ok? <==> pair.Iterable? && |pair.items| == 2
                       && pair.items[0].SessionObj? && pair.items[1].TimeObj?
    ensures r.Ok? ==> r.value == (pair.items[0].identifier, pair.items[1].time)
    ensures r.Err? ==> r.error == TypeError
  {
    match pair
    case NotIterable => Err(TypeError)
    case Iterable(items) =>
      if |items| != 2 then Err(TypeError)
      else if !items[0].SessionObj? then Err(TypeError)
      else if !items[1].TimeObj? then Err(TypeError)
      else Ok((items[0].identifier, items[1].time))
  }

  // ---------------------------------------------------------- RevisionCodec

  /** The UTC `datetime` at an instant. */
  function AtInstant(t: int): (d: DateTime)
    requires ValidInstant(t)
    ensures WellFormed(d) && d.tz == Some(Utc) && ToInstant(d.civil) == t
  {
    InstantRoundTrip(t);
    DateTime(FromInstant(t), Some(Utc))
  }

  /** The instant an aware value stands for. */
  function InstantOf(d: DateTime): int
    requires WellFormed(d) && d.tz.Some?
  {
    ToInstant(d.civil) - UtcOffset(d.tz.value) * 60000000
  }

  /**
   * `Rfc3339(prefer_utc=True).encode(d)` depends on the instant alone: it
   * is the text of the UTC value at that instant.
   */
  lemma EncodeByInstant(d: DateTime)
    requires WellFormed(d) && d.tz.Some? && AsUtc(d).Ok?
    ensures ValidInstant(InstantOf(d))
    ensures Rfc3339.Encode(Instance(d), true) == Ok(Rfc3339.Render(AtInstant(InstantOf(d))))
  {
    UtcAtInstant(d);
  }

  /** Converting to UTC gives the UTC value at the same instant. */
  lemma UtcAtInstant(d: DateTime)
    requires WellFormed(d) && d.tz.Some? && AsUtc(d).Ok?
    ensures ValidInstant(InstantOf(d)) && AsUtc(d).value == AtInstant(InstantOf(d))
  {
    UtcValue(AsUtc(d).value, InstantOf(d));
  }

  /** A UTC value is the UTC value at its own instant. */
  lemma UtcValue(u: DateTime, t: int)
    requires WellFormed(u) && u.tz == Some(Utc) && ToInstant(u.civil) == t
    ensures ValidInstant(t) && u == AtInstant(t)
  {
    CivilRoundTrip(u.civil);
  }

  /** `'{0} {1}'.format(session, RFC3339_CODEC.encode(updated_at))`. */
  function RevisionText(rev: Revision): string
    requires ValidInstant(rev.updatedAt)
  {
    rev.session + " " + Rfc3339.Render(AtInstant(rev.updatedAt))
  }

  /** Every time object among the items is a real `datetime`. */
  predicate WellFormedItems(value: PairArg)
  {
    value.Iterable? ==> forall i :: 0 <= i < |value.items| && value.items[i].TimeObj? ==> WellFormed(value.items[i].time)
  }

  /**
   * `RevisionCodec().encode(value)`: anything but a revision pair is an
   * `EncodeError`, and so is a naive time; the text is the session's
   * identifier and the time in UTC.
   */
  function EncodeRevision(value: PairArg): (r: Result<string>)
    requires WellFormedItems(value)
    ensures EnsureRevisionPair(value).Err? ==> r == Err(EncodeError)
    ensures EnsureRevisionPair(value).Ok? && value.items[1].time.tz.None? ==> r == Err(EncodeError)
    ensures r.Ok? <==> EnsureRevisionPair(value).Ok? && value.items[1].time.tz.Some? && AsUtc(value.items[1].time).Ok?
    ensures r.Ok? ==> ValidInstant(InstantOf(value.items[1].time))
                      && r.value == RevisionText(Revision(value.items[0].identifier, InstantOf(value.items[1].time)))
  {
    match EnsureRevisionPair(value)
    case Err(_) => Err(EncodeError)
    case Ok((session, updatedAt)) =>
      assert WellFormed(updatedAt) by { assert value.items[1].TimeObj?; }
      match Rfc3339.Encode(Instance(updatedAt), true)
      case Err(e) => Err(e)
      case Ok(text) =>
        EncodeByInstant(updatedAt);
        Ok(session + " " + text)
  }

  /**
   * `RevisionCodec().decode(text)`: exactly two words, the first a session
   * identifier and the second an RFC 3339 time, read in UTC; anything else
   * is a `DecodeError` (or the `OverflowError` of the conversion to UTC).
   */
  function DecodeRevision(text: string): (r: Result<Revision>)
    ensures r.Ok? ==> ValidIdentifier(r.value.session) && ValidInstant(r.value.updatedAt)
    ensures r.Err? ==> r.error == DecodeError || r.error == OverflowError
  {
    WordsShape(text);
    FromWords(Words(text))
  }

  /** A revision from the words of its text. */
  function FromWords(w: seq<string>): (r: Result<Revision>)
    requires PlainWords(w)
    ensures r.Ok? ==> ValidIdentifier(r.value.session) && ValidInstant(r.value.updatedAt)
    ensures r.Err? ==> r.error == DecodeError || r.error == OverflowError
  {
    if |w| != 2 then Err(DecodeError)
    else if !ValidIdentifierAsWritten(w[0]) then Err(DecodeError)
    else
      match Rfc3339.Decode(w[1], true)
      case Err(e) => Err(e)
      case Ok(d) => Ok(Revision(w[0], ToInstant(d.civil)))
  }

  /** A revision of a valid session reads back as itself. */
  lemma {:induction false} RevisionRoundTrip(rev: Revision)
    requires ValidIdentifier(rev.session) && ValidInstant(rev.updatedAt)
    ensures DecodeRevision(RevisionText(rev)) == Ok(rev)
  {
    var c := FromInstant(rev.updatedAt);
    var stamp := Rfc3339.Render(AtInstant(rev.updatedAt));
    RevisionWords(rev);
    Rfc3339.UtcRoundTrip(c, true);
    InstantRoundTrip(rev.updatedAt);
    DecodeWords(RevisionText(rev), rev.session, stamp);
  }

  /** The text of a revision is two words: the identifier and the time. */
  lemma {:induction false} RevisionWords(rev: Revision)
    requires ValidIdentifier(rev.session) && ValidInstant(rev.updatedAt)
    ensures Words(RevisionText(rev)) == [rev.session, Rfc3339.Render(AtInstant(rev.updatedAt))]
  {
    var stamp := Rfc3339.Render(AtInstant(rev.updatedAt));
    IdentifierShape(rev.session);
    Rfc3339.UtcShape(FromInstant(rev.updatedAt));
    assert Join([rev.session, stamp], " ") == RevisionText(rev);
    WordsJoin([rev.session, stamp]);
  }

  /** Reading a text of two words: an identifier and a time that reads in UTC. */
  lemma {:induction false} DecodeWords(text: string, session: string, stamp: string)
    requires Words(text) == [session, stamp] && ValidIdentifier(session)
    requires Rfc3339.Decode(stamp, true).Ok?
    ensures DecodeRevision(text) == Ok(Revision(session, ToInstant(Rfc3339.Decode(stamp, true).value.civil)))
  {
    WordsShape(text);
  }

  /**
   * As written, `a` followed by a newline is an accepted identifier, and a
   * revision of that session reads back as a revision of session `a`.
   */
  lemma {:induction false} IdentifierTrailingNewline(t: int)
    requires ValidInstant(t)
    ensures ValidIdentifierAsWritten("a\n") && !ValidIdentifier("a\n")
    ensures DecodeRevision(RevisionText(Revision("a\n", t))) == Ok(Revision("a", t))
  {
    assert !IdentifierChar("a\n"[1]);
    assert "a\n"[..1] == "a";
    assert ValidIdentifier("a");
    var stamp := Rfc3339.Render(AtInstant(t));
    NewlineWords(t);
    Rfc3339.UtcRoundTrip(FromInstant(t), true);
    InstantRoundTrip(t);
    DecodeWords(RevisionText(Revision("a\n", t)), "a", stamp);
  }

  /** The newline ends the first word. */
  lemma {:induction false} NewlineWords(t: int)
    requires ValidInstant(t)
    ensures Words(RevisionText(Revision("a\n", t))) == ["a", Rfc3339.Render(AtInstant(t))]
  {
    var stamp := Rfc3339.Render(AtInstant(t));
    Rfc3339.UtcShape(FromInstant(t));
    var tail := ['\n'] + (" " + stamp);
    assert RevisionText(Revision("a\n", t)) == "a" + tail;
    assert NoSpace("a");
    BlankThenWord('\n', stamp);
    WordThenOneWord("a", tail, stamp);
  }

  /** A word, then text that starts with whitespace and holds one more word. */
  lemma {:induction false} WordThenOneWord(w: string, tail: string, stamp: string)
    requires w != [] && NoSpace(w) && tail != [] && IsSpace(tail[0])
    requires Words(tail) == [stamp]
    ensures Words(w + tail) == [w, stamp]
  {
    WordsCons(w, tail);
  }

  /** Whitespace, a space and one word hold that one word. */
  lemma {:induction false} BlankThenWord(c: char, stamp: string)
    requires IsSpace(c) && stamp != [] && NoSpace(stamp)
    ensures Words([c] + (" " + stamp)) == [stamp]
  {
    WordsLeadingWhitespace(c, " " + stamp);
    WordsLeadingSpace(stamp);
    WordsCons(stamp, "");
    assert stamp + "" == stamp;
  }

  // ------------------------------------------------------- RevisionSetCodec

  /** Each pair is at least as recent as every pair after it. */
  predicate NewestFirst(pairs: seq<Revision>)
  {
    forall i, j :: 0 <= i < j < |pairs| ==> pairs[i].updatedAt >= pairs[j].updatedAt
  }

  /** Puts a pair in front of the first pair that is not more recent. */
  function Insert(p: Revision, sorted: seq<Revision>): (r: seq<Revision>)
    ensures multiset(r) == multiset(sorted) + multiset{p}
  {
    if sorted == [] || sorted[0].updatedAt <= p.updatedAt then [p] + sorted
    else
      assert sorted == [sorted[0]] + sorted[1..];
      [sorted[0]] + Insert(p, sorted[1..])
  }

  /** Inserting into a list that is newest first keeps it newest first. */
  lemma {:induction false} InsertNewestFirst(p: Revision, sorted: seq<Revision>)
    requires NewestFirst(sorted)
    ensures NewestFirst(Insert(p, sorted))
  {
    if !(sorted == [] || sorted[0].updatedAt <= p.updatedAt) {
      var head := sorted[0];
      var rest := Insert(p, sorted[1..]);
      InsertNewestFirst(p, sorted[1..]);
      InsertBounded(p, sorted[1..], head.updatedAt);
      ConsNewestFirst(head, rest);
    } else {
      ConsNewestFirst(p, sorted);
    }
  }

  /** Inserting a pair no newer than `t` among pairs no newer than `t` keeps them all no newer than `t`. */
  lemma {:induction false} InsertBounded(p: Revision, sorted: seq<Revision>, t: int)
    requires p.updatedAt <= t && forall k :: 0 <= k < |sorted| ==> sorted[k].updatedAt <= t
    ensures forall k :: 0 <= k < |Insert(p, sorted)| ==> Insert(p, sorted)[k].updatedAt <= t
  {
    if !(sorted == [] || sorted[0].updatedAt <= p.updatedAt) {
      var rest := Insert(p, sorted[1..]);
      InsertBounded(p, sorted[1..], t);
      assert forall k :: 1 <= k < |rest| + 1 ==> ([sorted[0]] + rest)[k] == rest[k - 1];
    } else {
      assert forall k :: 1 <= k < |sorted| + 1 ==> ([p] + sorted)[k] == sorted[k - 1];
    }
  }

  /** A pair at least as new as every pair of a newest-first list can go in front of it. */
  lemma ConsNewestFirst(x: Revision, s: seq<Revision>)
    requires NewestFirst(s) && forall k :: 0 <= k < |s| ==> s[k].updatedAt <= x.updatedAt
    ensures NewestFirst([x] + s)
  {
    assert forall k :: 1 <= k < |s| + 1 ==> ([x] + s)[k] == s[k - 1];
  }

  /** `pairs.sort(key=lambda pair: pair[1], reverse=True)`: a stable sort, newest first. */
  function SortNewestFirst(pairs: seq<Revision>): (r: seq<Revision>)
    ensures multiset(r) == multiset(pairs)
    ensures NewestFirst(r)
  {
    if pairs == [] then []
    else
      assert pairs == [pairs[0]] + pairs[1..];
      InsertNewestFirst(pairs[0], SortNewestFirst(pairs[1..]));
      Insert(pairs[0], SortNewestFirst(pairs[1..]))
  }

  /** `order` names every session of the set once: the order `items()` lists them in. */
  predicate Enumerates(order: seq<string>, rs: RevisionSet)
  {
    (forall i :: 0 <= i < |order| ==> order[i] in rs)
    && (forall s :: s in rs ==> s in order)
    && (forall i, j :: 0 <= i < j < |order| ==> order[i] != order[j])
  }

  /** `value.items()` in that order. */
  function Listing(rs: RevisionSet, order: seq<string>): (r: seq<Revision>)
    requires forall i :: 0 <= i < |order| ==> order[i] in rs
    ensures |r| == |order|
    ensures forall i :: 0 <= i < |r| ==> r[i] == Revision(order[i], rs[order[i]])
  {
    seq(|order|, i requires 0 <= i < |order| => Revision(order[i], rs[order[i]]))
  }

  function Texts(pairs: seq<Revision>): (r: seq<string>)
    requires forall p :: p in pairs ==> ValidInstant(p.updatedAt)
    ensures |r| == |pairs| && forall i :: 0 <= i < |r| ==> r[i] == RevisionText(pairs[i])
  {
    seq(|pairs|, i requires 0 <= i < |pairs| => RevisionText(pairs[i]))
  }

  /**
   * `RevisionSetCodec().encode(value)`: anything but a revision set is an
   * `EncodeError`; a set is written as its pairs, newest first, joined by
   * a comma and a newline.
   */
  function EncodeSet(value: Arg<RevisionSet>, order: seq<string>): (r: Result<string>)
    requires value.Instance? ==> ValidTimes(value.value) && Enumerates(order, value.value)
    ensures r.Err? <==> value.OtherType?
    ensures r.Err? ==> r.error == EncodeError
    ensures r.Ok? ==> exists pairs: seq<Revision> :: multiset(pairs) == multiset(Listing(value.value, order)) && NewestFirst(pairs)
                                      && (forall p :: p in pairs ==> ValidInstant(p.updatedAt))
                                      && r.value == Join(Texts(pairs), ",\n")
  {
    if value.OtherType? then Err(EncodeError)
    else
      var pairs := SortNewestFirst(Listing(value.value, order));
      assert forall p :: p in pairs ==> p in Listing(value.value, order) by {
        forall p | p in pairs ensures p in Listing(value.value, order) {
          assert p in multiset(pairs);
        }
      }
      assert NewestFirst(pairs);
      Ok(Join(Texts(pairs), ",\n"))
  }

  /**
   * Decodes each piece in turn: the result holds every piece's value when
   * all of them decode, and otherwise the error of a piece that fails.
   */
  function DecodeAll<T>(pieces: seq<string>, decode: string -> Result<T>): (r: Result<seq<T>>)
    ensures r.Ok? <==> forall i :: 0 <= i < |pieces| ==> decode(pieces[i]).Ok?
    ensures r.Ok? ==> |r.value| == |pieces|
                      && forall i :: 0 <= i < |pieces| ==> decode(pieces[i]) == Ok(r.value[i])
    ensures r.Err? ==> exists i :: 0 <= i < |pieces| && decode(pieces[i]) == Err(r.error)
  {
    if pieces == [] then Ok([])
    else
      var head := decode(pieces[0]);
      var tail := DecodeAll(pieces[1..], decode);
      assert forall i :: 1 <= i < |pieces| ==> pieces[i] == pieces[1..][i - 1];
      if head.Err? then Err(head.error)
      else if tail.Err? then
        var j :| 0 <= j < |pieces[1..]| && decode(pieces[1..][j]) == Err(tail.error);
        assert decode(pieces[j + 1]) == Err(tail.error);
        Err(tail.error)
      else
        var r := [head.value] + tail.value;
        assert forall i :: 1 <= i < |pieces| ==> r[i] == tail.value[i - 1];
        Ok(r)
  }

  /** A text that is not blank, split at its commas into revisions. */
  function DecodePairs(pieces: seq<string>): (r: Result<seq<Revision>>)
    ensures r.Ok? ==> |r.value| == |pieces|
                      && forall i :: 0 <= i < |pieces| ==> DecodeRevision(pieces[i]) == Ok(r.value[i])
    ensures r.Err? ==> r.error == DecodeError || r.error == OverflowError
  {
    DecodeAll(pieces, DecodeRevision)
  }

  /**
   * `RevisionSetCodec().decode(text)`: blank text is the empty set;
   * otherwise the pieces between commas (the whitespace around a comma is
   * dropped with the rest of the whitespace when each piece is split into
   * words), each read as a revision, a later pair of the same session
   * replacing an earlier one.
   */
  function DecodeSet(text: string): (r: Result<RevisionSet>)
    ensures r.Ok? ==> ValidTimes(r.value) && forall s :: s in r.value ==> ValidIdentifier(s)
    ensures r.Err? ==> r.error == DecodeError || r.error == OverflowError
  {
    if Strip(text) == [] then Ok(map[])
    else
      match DecodePairs(Split(text, ','))
      case Err(e) => Err(e)
      case Ok(pairs) =>
        assert forall p :: p in pairs ==> ValidIdentifier(p.session) && ValidInstant(p.updatedAt);
        Ok(FromPairs(pairs))
  }

  /** The pieces after the first, each behind the newline of the separator. */
  function Indented(texts: seq<string>): (r: seq<string>)
    ensures |r| == |texts| && forall i :: 0 <= i < |r| ==> r[i] == "\n" + texts[i]
  {
    seq(|texts|, i requires 0 <= i < |texts| => "\n" + texts[i])
  }

  /** Joining with a comma and a newline is joining, with a comma, the pieces indented by the newline. */
  lemma {:induction false} JoinIndented(texts: seq<string>)
    requires texts != []
    ensures "\n" + Join(texts, ",\n") == Join(Indented(texts), ",")
  {
    if |texts| > 1 {
      var rest := texts[1..];
      JoinIndented(rest);
      assert Indented(texts) == ["\n" + texts[0]] + Indented(rest);
      assert "\n" + Join(texts, ",\n") == ("\n" + texts[0]) + "," + ("\n" + Join(rest, ",\n"));
    }
  }

  /** Reading pieces that each decode gives their revisions. */
  lemma DecodeEach(pieces: seq<string>, pairs: seq<Revision>)
    requires |pieces| == |pairs|
    requires forall i :: 0 <= i < |pieces| ==> DecodeRevision(pieces[i]) == Ok(pairs[i])
    ensures DecodePairs(pieces) == Ok(pairs)
  {
    var r := DecodeAll(pieces, DecodeRevision);
    assert r.Ok?;
    assert r.value == pairs;
  }

  /** The text of a revision holds no comma and starts with the identifier. */
  lemma TextShape(rev: Revision)
    requires ValidIdentifier(rev.session) && ValidInstant(rev.updatedAt)
    ensures ',' !in RevisionText(rev)
    ensures RevisionText(rev) != [] && !IsSpace(RevisionText(rev)[0])
  {
    IdentifierShape(rev.session);
    Rfc3339.UtcShape(FromInstant(rev.updatedAt));
    SpacedPair(rev.session, Rfc3339.Render(AtInstant(rev.updatedAt)));
  }

  /** Two comma-free words joined by a space make a comma-free text starting with the first. */
  lemma SpacedPair(a: string, b: string)
    requires a != [] && ',' !in a && ',' !in b
    ensures ',' !in a + " " + b && (a + " " + b)[0] == a[0]
  {
    var text := a + " " + b;
    forall i | 0 <= i < |text| ensures text[i] != ',' {
      if i < |a| {
        assert text[i] == a[i];
      } else if i > |a| {
        assert text[i] == b[i - |a| - 1];
      }
    }
  }

  /** `decode` looks only at the words of its text. */
  lemma DecodeByWords(a: string, b: string)
    requires Words(a) == Words(b)
    ensures DecodeRevision(a) == DecodeRevision(b)
  {
    WordsShape(a);
  }

  /** A permutation has the same length and the same members. */
  lemma SameMembers<T>(a: seq<T>, b: seq<T>)
    requires multiset(a) == multiset(b)
    ensures |a| == |b| && forall x :: x in a <==> x in b
  {
    assert |a| == |multiset(a)| == |multiset(b)| == |b|;
    forall x ensures x in a <==> x in b {
      assert x in a <==> x in multiset(a);
      assert x in b <==> x in multiset(b);
    }
  }

  /** The items of a set, in any order, make that set again. */
  lemma ListingPairs(rs: RevisionSet, order: seq<string>, pairs: seq<Revision>)
    requires Enumerates(order, rs)
    requires forall p :: p in pairs <==> p in Listing(rs, order)
    ensures FromPairs(pairs) == rs
  {
    ListingMembers(rs, order);
    ItemsPairs(rs, pairs);
  }

  /** The listing holds exactly the items of the set. */
  lemma ListingMembers(rs: RevisionSet, order: seq<string>)
    requires Enumerates(order, rs)
    ensures forall p :: p in Listing(rs, order) <==> p.session in rs && rs[p.session] == p.updatedAt
  {
    var listing := Listing(rs, order);
    forall p: Revision | p.session in rs && rs[p.session] == p.updatedAt ensures p in listing {
      var i :| 0 <= i < |order| && order[i] == p.session;
      assert listing[i] == p;
    }
  }

  /** Pairs that are exactly the items of a set make that set. */
  lemma ItemsPairs(rs: RevisionSet, pairs: seq<Revision>)
    requires forall p :: p in pairs <==> p.session in rs && rs[p.session] == p.updatedAt
    ensures FromPairs(pairs) == rs
  {
    var m := FromPairs(pairs);
    forall s | s in rs ensures s in m {
      assert Revision(s, rs[s]) in pairs;
    }
    forall s | s in m ensures s in rs && m[s] == rs[s] {
      assert Revision(s, m[s]) in pairs;
    }
    assert m.Keys == rs.Keys;
  }

  /** What sorting the items of a set keeps: the sessions, their times and their count. */
  lemma SortedListing(rs: RevisionSet, order: seq<string>, pairs: seq<Revision>)
    requires ValidTimes(rs) && Enumerates(order, rs)
    requires forall s :: s in rs ==> ValidIdentifier(s)
    requires multiset(pairs) == multiset(Listing(rs, order))
    ensures |pairs| == |order|
    ensures forall p :: p in pairs ==> ValidIdentifier(p.session) && ValidInstant(p.updatedAt)
    ensures FromPairs(pairs) == rs
  {
    SameMembers(pairs, Listing(rs, order));
    ListingPairs(rs, order, pairs);
  }

  /**
   * Texts without a comma, joined by a comma and a newline, split at the
   * commas into the first text and the others behind their newline.
   */
  lemma {:induction false} SplitJoined(texts: seq<string>)
    requires texts != [] && forall i :: 0 <= i < |texts| ==> ',' !in texts[i]
    ensures Split(Join(texts, ",\n"), ',') == [texts[0]] + Indented(texts[1..])
  {
    var pieces := [texts[0]] + Indented(texts[1..]);
    if |texts| > 1 {
      JoinIndented(texts[1..]);
      assert Join(texts, ",\n") == texts[0] + "," + ("\n" + Join(texts[1..], ",\n"));
      assert Join(pieces, ",") == texts[0] + "," + Join(Indented(texts[1..]), ",") by {
        assert pieces[1..] == Indented(texts[1..]);
      }
    }
    forall i | 0 <= i < |pieces| ensures ',' !in pieces[i] {
      if i > 0 {
        assert pieces[i] == "\n" + texts[i];
      }
    }
    SplitJoin(pieces, ',');
  }

  /** The comma-separated pieces of the encoded set: the first text, then the others behind their newline. */
  lemma EncodedPieces(pairs: seq<Revision>)
    requires pairs != []
    requires forall p :: p in pairs ==> ValidIdentifier(p.session) && ValidInstant(p.updatedAt)
    ensures var texts := Texts(pairs);
            Split(Join(texts, ",\n"), ',') == [texts[0]] + Indented(texts[1..])
  {
    var texts := Texts(pairs);
    forall i | 0 <= i < |texts| ensures ',' !in texts[i] {
      TextShape(pairs[i]);
    }
    SplitJoined(texts);
  }

  /** Each piece of the encoded set reads back as its pair. */
  lemma {:induction false} DecodeEncodedPieces(pairs: seq<Revision>)
    requires pairs != []
    requires forall p :: p in pairs ==> ValidIdentifier(p.session) && ValidInstant(p.updatedAt)
    ensures var texts := Texts(pairs);
            DecodePairs([texts[0]] + Indented(texts[1..])) == Ok(pairs)
  {
    var texts := Texts(pairs);
    var pieces := [texts[0]] + Indented(texts[1..]);
    forall i | 0 <= i < |pieces| ensures DecodeRevision(pieces[i]) == Ok(pairs[i]) {
      assert pairs[i] in pairs;
      RevisionRoundTrip(pairs[i]);
      if i > 0 {
        assert pieces[i] == "\n" + texts[i];
        WordsLeadingWhitespace('\n', texts[i]);
        DecodeByWords(pieces[i], texts[i]);
      }
    }
    DecodeEach(pieces, pairs);
  }

  /** Text that starts with a non-space character is not blank. */
  lemma StripNonBlank(text: string)
    requires text != [] && !IsSpace(text[0])
    ensures Strip(text) != []
  {
    assert LStrip(text) == text;
  }

  /** A join starts where its first piece starts. */
  lemma JoinStart(texts: seq<string>, sep: string)
    requires texts != [] && texts[0] != []
    ensures Join(texts, sep) != [] && Join(texts, sep)[0] == texts[0][0]
  {
    if |texts| > 1 {
      assert Join(texts, sep) == texts[0] + (sep + Join(texts[1..], sep));
    }
  }

  /** The encoded pairs of a non-empty list read back as the set they make. */
  lemma DecodeJoined(pairs: seq<Revision>)
    requires pairs != []
    requires forall p :: p in pairs ==> ValidIdentifier(p.session) && ValidInstant(p.updatedAt)
    ensures DecodeSet(Join(Texts(pairs), ",\n")) == Ok(FromPairs(pairs))
  {
    var texts := Texts(pairs);
    var text := Join(texts, ",\n");
    EncodedPieces(pairs);
    DecodeEncodedPieces(pairs);
    TextShape(pairs[0]);
    JoinStart(texts, ",\n");
    StripNonBlank(text);
  }

  /**
   * Every set of valid sessions reads back as itself, whatever order its
   * items come in.
   */
  lemma SetRoundTrip(rs: RevisionSet, order: seq<string>)
    requires ValidTimes(rs) && Enumerates(order, rs)
    requires forall s :: s in rs ==> ValidIdentifier(s)
    ensures EncodeSet(Instance(rs), order).Ok?
    ensures DecodeSet(EncodeSet(Instance(rs), order).value) == Ok(rs)
  {
    var pairs := SortNewestFirst(Listing(rs, order));
    SortedListing(rs, order, pairs);
    var text := Join(Texts(pairs), ",\n");
    assert EncodeSet(Instance(rs), order) == Ok(text);
    if order == [] {
      assert rs == map[];
      assert Strip(text) == [];
    } else {
      DecodeJoined(pairs);
    }
  }
}
