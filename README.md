# libearth, modelled in Dafny

libearth is the shared core of the Earth Reader feed reader. It keeps feeds and subscription lists as XML documents. Several devices, each a *session*, may edit the same document. Every document records which session revised it last and which revisions it already includes, and two copies are merged by rules that need no central server.

This project models that core and proves what it promises. One module stands for each part of the library:

- `Sessions` and `Revisions` (libearth/session.py) model the following:
  - session identifiers and the pool that interns one session per identifier;
  - revisions and revision sets, with their pointwise-maximum merge and their dominance test;
  - the text codecs of revisions and revision sets;
  - `revise`, `pull` and the two-document `merge`.
  A mergeable document is a `Document` object. It holds its revision, its base revisions and a fixed record of attributes, content, single children and child lists. This record stands in for the reflective walk over the document's class.
- `Subscribe` (libearth/subscribe.py) models the following:
  - the OPML `outline` tree used as a set;
  - `add`, `discard`, iteration with its in-place upgrade of raw outlines, and membership;
  - categories and recursive subscriptions;
  - the `SubscriptionList` head and body accessors.
- `FeedLists` (libearth/feedlist.py and its older twin libearth/feed.py) models the following:
  - `Feed` and `FeedCategory` objects, with the category's duplicate and cycle checks;
  - recursive membership;
  - the interning `FeedList` and the conversions between outlines and the tree.
- The rows below cite feedlist.py for the members that model both of these files. feed.py has the same logic at these lines:
  - `FeedCategory.insert` at libearth/feed.py:66-92;
  - `__contains__` at 94-105;
  - `__setitem__` and `__delitem__` at 116-122;
  - `FeedList.insert` and `make_feed` at 274-302;
  - the two conversions at 304-352.
  The one difference is in `FeedList.insert`. In feed.py a category carries an `xml_url` of its own, and that url enters the lookup key. feedlist.py, like the model, uses `None` there.
- `CommaLists` is the `CommaSeparatedList` codec that those three files each define with the same body: libearth/subscribe.py:28-55, libearth/feedlist.py:18-45 and libearth/feed.py:15-30. The rows below cite the subscribe.py copy.
- `Schema` (libearth/schema.py) models the following:
  - the `Child` and `Content` descriptors;
  - the argument checks of `DocumentElement`;
  - the SAX content handler's stack machine, driven by abstract parse events;
  - the getters that pull input until a value exists.
- `Stage` (libearth/stage.py) models `compile_format_to_pattern`. The regular expression it builds is a list of literal and wildcard tokens, and `Accepts` is the anchored match.
- `Codecs`, `Rfc3339`, `Rfc822`, `Tz`, `DateTimes` and `Calendar` (libearth/codecs.py and libearth/tz.py) model the following:
  - the `Enum`, `Integer` and `Boolean` codecs;
  - the RFC 3339 (section 5.6) and RFC 822 (section 5) date-time codecs;
  - `Utc` and `FixedOffset`;
  - the proleptic Gregorian calendar of Python's `datetime`, on which the codecs rest.
- `ClrXmlReader` (libearth/compat/clrxmlreader.py) models `IteratorStream`, the byte stream over an iterator of chunks. It is a class whose fields `Read` and `consume` update in place.
- `Sanitizer` (libearth/sanitizer.py) models `MarkupTagCleaner` and `HtmlSanitizer` as classes that collect output chunks while handler calls arrive, and `clean_html` and `sanitize_html` over a sequence of handler calls.
- `RssBase` (libearth/parser/rss_base.py) models `link_parser`, `text_parser` and `make_legal_as_atom`, which completes an RSS feed as RFC 4287 (sections 4.1.1 and 4.1.2) requires of a feed and its entries.
- `Defaults` (libearth/defaults.py) models `BlogrollLinkParser`, which picks the preferred blogroll link of an HTML page.
- `Wrappers` and `Strings` hold the shared vocabulary:
  - `Option` and `Result`;
  - the exceptions;
  - the dynamically typed values that `isinstance` tests look at;
  - the Python string operations the library uses.

The model represents values as follows:
- A time is an instant: an integer number of microseconds since 0001-01-01T00:00:00 UTC. This is how aware `datetime` values compare.
- A time zone offset is a number of minutes.
- A session is named by its validated identifier.
- Strings are sequences of characters.

Where the library and its tests disagree, the model follows the library:
- tests/stage_test.py:66-75 expects `{session.identifier}` to be a placeholder. `compile_format_to_pattern` only recognises `{digits}`, and so does `Stage`.
- Some tests import names that the modelled modules do not define, for example `Version` in tests/codecs_test.py and `guess_tzinfo_by_locale` in tests/tz_test.py. Such tests do not drive any property here.

## Model

| member | source | states |
|---|---|---|
| Tz.UtcOffset | libearth/tz.py:32-33 | `Utc.utcoffset` is zero and `FixedOffset.utcoffset` is the configured offset, whatever the datetime asked about |
| Tz.Dst | libearth/tz.py:35-36 | Neither `Utc` nor `FixedOffset` observes daylight saving time: `dst` is zero |
| Tz.TzName | libearth/tz.py:38-39 | `Utc.tzname` is `'UTC'`; a `FixedOffset`'s name is the one it was given or defaulted to |
| Tz.MakeFixedOffset | libearth/tz.py:59-63 | `FixedOffset(offset, name)` keeps the offset with zero DST; a non-empty name is kept, and a missing or empty one falls back to the default name as written, with Python's floor division and modulo, which is the intended `±HH:MM` at or east of UTC |
| Tz.DefaultNameReadsBack | libearth/tz.py:62-63 | The intended `±HH:MM` default name reads back as the offset, for every offset under 100 hours either way |
| Tz.DefaultNameAsWrittenEast | libearth/tz.py:62-63 | For offsets at or east of UTC, the floor-division name the code writes equals the intended name |
| Tz.DefaultNameAsWrittenWest | libearth/tz.py:62-63 | As written, `FixedOffset(-90)` is named `-02:30`, which reads back as -150 minutes; the intended name is `-01:30` |
| Tz.NameOfNineHoursEast | libearth/tz.py:59-63 | `FixedOffset(540)` is named `+09:00` |
| DateTimes.AsUtc | libearth/codecs.py:109-110 | `astimezone(utc)` keeps the instant and puts the value in UTC; a value already in `utc` is returned unchanged; an offset of a day or more is a `ValueError`, and a result outside years 1 to 9999 is an `OverflowError` |
| DateTimes.AsUtcIdempotent | libearth/codecs.py:109-110 | Converting to UTC a second time changes nothing |
| DateTimes.Normalized | libearth/codecs.py:130-136 | The zone a codec reads back after writing a zone has the same UTC offset |
| Codecs.NewEnum | libearth/codecs.py:36-45 | `Enum(values)`: anything not iterable, or yielding a non-string, is a `TypeError`; otherwise the accepted set is exactly the strings yielded, and a string yields its characters |
| Codecs.EnumEncode | libearth/codecs.py:47-57 | `Enum.encode` passes a value unchanged exactly when it is a string among the values; anything else is an `EncodeError` |
| Codecs.EnumDecode | libearth/codecs.py:59-63 | `Enum.decode` passes a text unchanged exactly when it is among the values; anything else is a `DecodeError` |
| Codecs.EnumGender | libearth/codecs.py:21-63 | `Enum(['male', 'female'])` accepts exactly its two values both ways and rejects `'invalid'` both ways |
| Codecs.IntegerEncode | libearth/codecs.py:278-281 | `Integer.encode` succeeds exactly on integral values (`bool` included), and its text parses back as the integer; otherwise `EncodeError` |
| Codecs.IntegerDecode | libearth/codecs.py:283-287 | `Integer.decode` succeeds exactly when `int(text)` does, with that value; otherwise `DecodeError` |
| Codecs.IntegerRoundTrip | libearth/codecs.py:278-287 | Every integer survives `encode` then `decode` |
| Codecs.IntegerDecodeLetters | libearth/codecs.py:283-287 | `Integer().decode('aaa')` is a `DecodeError` |
| Codecs.Accepted | libearth/codecs.py:328-331 | The texts `decode` accepts for one truth value: the string alone, or every item of the tuple |
| Codecs.Preferred | libearth/codecs.py:315-318 | The text written for a truth value is the string, or the tuple's first item, which `decode` accepts; an empty tuple is an `IndexError` |
| Codecs.BooleanEncodeAsWritten | libearth/codecs.py:308-325 | `Boolean.encode` as written agrees with the intended encoding whenever both configured texts are plain strings |
| Codecs.BooleanEncode | libearth/codecs.py:308-325 | The intended `Boolean.encode`: `None` stands for the default value; a non-bool is an `EncodeError`; `True`/`False` give their preferred texts; a missing value stays `None` |
| Codecs.BooleanDecode | libearth/codecs.py:327-341 | `Boolean.decode`: a true text gives `True` (tried first), a false text `False`, a missing or empty text the default value; any other text is a `DecodeError` |
| Codecs.BooleanRoundTrip | libearth/codecs.py:308-341 | A truth value survives `encode` then `decode` when both preferred texts exist and the false text is not also a true text |
| Codecs.BooleanEncodeAsWrittenFirstCharacter | libearth/codecs.py:315-318 | As written, with a tuple of true texts and a single false text, `False` is written as the false text's first character, which does not decode |
| Codecs.BooleanEncodeAsWrittenTuple | libearth/codecs.py:315-318 | As written, with a single true text and a tuple of false texts, `False` is written as the whole tuple rather than a string |
| Codecs.BooleanDefault | libearth/codecs.py:327-341 | `Boolean(default_value=False).decode(None)` is `False`, and an unknown text fails |
| CommaLists.Encode | libearth/subscribe.py:41-48 | `None` is written as `''`, a string unchanged, an empty list as `''`, and any other list as its first label followed by each further label with a comma in front |
| CommaLists.JoinCommas | libearth/subscribe.py:47 | `','.join` of a non-empty list is its first label followed by `','` + each further label, in order |
| CommaLists.EncodePair | libearth/subscribe.py:34-35 | `['technology', 'business']` is written `'technology,business'` |
| CommaLists.Decode | libearth/subscribe.py:50-55 | `None` decodes to the empty list; any text decodes to at least one label |
| CommaLists.DecodeEncode | libearth/subscribe.py:41-55 | A non-empty list of labels without commas or surrounding whitespace survives `encode` then `decode` |
| CommaLists.EmptyListDecodesToOneLabel | libearth/subscribe.py:41-55 | The empty list does not survive: it is written as `''`, which decodes to one empty label |
| CommaLists.DecodeSpacedPair | libearth/subscribe.py:50-55 | Whitespace around a comma is dropped: `'a, b'` decodes to `[a, b]` |
| Rfc3339.EncodeAsWritten | libearth/codecs.py:96-122 | `Rfc3339.encode` as written: a non-`datetime` or naive value is an `EncodeError`; an aware value is written as its header, fraction and `+`-signed zone suffix, after conversion to UTC when `prefer_utc` is set (whose errors it passes on); it fails exactly where the intended encoding fails, and under `prefer_utc` writes the same text |
| Rfc3339.Encode | libearth/codecs.py:96-122 | The intended `encode`: the same errors, and the zone suffix carries the offset's own sign |
| Rfc3339.OffsetMinutes | libearth/codecs.py:130-134 | A `±HH:MM` suffix with hours 00-23 and minutes 00-59 is read as minutes east of UTC, always strictly within one day |
| Rfc3339.SplitZone | libearth/codecs.py:85-90 | What follows the seconds splits into an optional fraction and a zone whose offset is within one day |
| Rfc3339.PadMicro | libearth/codecs.py:137-138 | The microsecond digits are padded on the right with zeros to at least six digits |
| Rfc3339.Decode | libearth/codecs.py:124-154 | `decode` strips the text, which must then match the whole pattern and name a real `datetime`, else `DecodeError`; every result is aware with an offset within a day, and with `prefer_utc` it is in UTC |
| Rfc3339.FromParts | libearth/codecs.py:130-154 | The six header fields and the suffix give a well-formed aware value or a `DecodeError` (an `OverflowError` only from the UTC conversion) |
| Rfc3339.HeaderRoundTrip | libearth/codecs.py:80-111 | The `%Y-%m-%dT%H:%M:%S` header of a valid date-time matches the header part of the pattern |
| Rfc3339.SignedOffset | libearth/codecs.py:87-89 | A sign followed by `HH:MM` matches the offset part of the pattern |
| Rfc3339.FractionRoundTrip | libearth/codecs.py:112-138 | The fraction `encode` writes for a microsecond count reads back as that count |
| Rfc3339.StrippedFraction | libearth/codecs.py:114-138 | Six digits with their trailing zeros stripped pad back to the same six digits |
| Rfc3339.OffsetMinutesOfName | libearth/codecs.py:119-121 | The intended zone suffix of any non-zero offset within a day reads back as that offset |
| Rfc3339.OffsetMinutesAsWritten | libearth/codecs.py:119-134 | The suffix written from `timedelta.seconds` reads back as the offset modulo one day |
| Rfc3339.DecodeParts | libearth/codecs.py:124-154 | A header, a fraction and a zone suffix decode to the header's civil fields and the zone the suffix names |
| Rfc3339.DecodeHeader | libearth/codecs.py:124-130 | Decoding a header followed by more text reads the header's six fields |
| Rfc3339.FromPartsOf | libearth/codecs.py:130-151 | The header fields of a valid date-time with its fraction and suffix rebuild that date-time in the suffix's zone |
| Rfc3339.SplitZoneOf | libearth/codecs.py:85-90 | A fraction followed by a zone suffix splits back into the two |
| Rfc3339.RoundTrip | libearth/codecs.py:96-154 | Every aware value with an offset within a day reads back as itself; a zero offset reads back as `utc` and any other as an unnamed `FixedOffset` |
| Rfc3339.EncodeRoundTrip | libearth/codecs.py:96-154 | With `prefer_utc`, `encode` then `decode` gives the value converted to UTC; without it, the value itself |
| Rfc3339.ZoneAsWrittenWest | libearth/codecs.py:119-121 | As written, five hours west of UTC is written `+19:00`, where `-05:00` is meant |
| Rfc3339.EncodeAsWrittenWest | libearth/codecs.py:96-154 | As written, every offset west of UTC reads back one day further east, so the value read back is a different instant |
| Rfc3339.UtcRoundTrip | libearth/codecs.py:96-154 | A UTC value reads back as itself whether or not `prefer_utc` is set |
| Rfc3339.UtcShape | libearth/codecs.py:111-117 | A UTC value is written as one word without spaces or commas |
| Rfc3339.FractionShape | libearth/codecs.py:112-114 | The fraction is a point followed by digits, or nothing |
| Rfc822.EncodeAsWritten | libearth/codecs.py:219-241 | `Rfc822.encode` as written fails exactly on a non-`datetime` or naive value, with `EncodeError` |
| Rfc822.Encode | libearth/codecs.py:219-241 | The intended `encode`: the same errors, and the zone carries the offset's own sign |
| Rfc822.NumericZone | libearth/codecs.py:211-213 | `[+-]HH:?MM` is read as a sign, two hour digits and two minute digits |
| Rfc822.MonthIndex | libearth/codecs.py:249-255 | `MONTHS.index(name)` is the first position holding exactly `name`, and fails exactly when no month is spelled so |
| Rfc822.IndexFrom | libearth/codecs.py:251 | The search behind `MonthIndex`: the first position from `i` on holding the name |
| Rfc822.Match | libearth/codecs.py:204-217 | `PATTERN` accepts six words: a weekday and a comma, the day, a month name, the year, `HH:MM:SS` and a numeric or named zone, names in any case |
| Rfc822.NamedZone | libearth/codecs.py:266-267 | `TIMEZONES[name]` succeeds exactly on a name of the table in its own case, with that zone; any other case is a `KeyError` |
| Rfc822.ZoneOf | libearth/codecs.py:260-267 | The intended zone reading: a numeric zone is a `FixedOffset` with the sign applied to the whole offset; a name goes through the table |
| Rfc822.Build | libearth/codecs.py:248-272 | A matched text needs an exact month name (else `DecodeError`), then its zone; the result has the matched fields, no microseconds and that zone |
| Rfc822.DecodeAsWritten | libearth/codecs.py:243-272 | `decode` as written: every result is a well-formed aware value without microseconds |
| Rfc822.Decode | libearth/codecs.py:243-272 | The intended `decode`: results are well-formed without microseconds; failures are `DecodeError` (no match, wrong month case), `KeyError` (wrong zone-name case) or `ValueError` (impossible date) |
| Rfc822.WeekdayWordOf | libearth/codecs.py:236 | The weekday word `encode` writes is one the pattern accepts |
| Rfc822.MonthIndexOf | libearth/codecs.py:237 | Every month name is found at its own position |
| Rfc822.FirstIndex | libearth/codecs.py:251 | In a list without repetitions each name is first found at its own position |
| Rfc822.TimeRoundTrip | libearth/codecs.py:234 | `%H:%M:%S` reads back as its three fields |
| Rfc822.ZoneRoundTrip | libearth/codecs.py:260-265 | The intended zone of an offset under 100 hours reads back as that offset |
| Rfc822.ZoneAsWrittenReadsBack | libearth/codecs.py:232-265 | The zone written from `timedelta.seconds` reads back, both ways of reading, as the offset modulo one day |
| Rfc822.EastZone | libearth/codecs.py:260-265 | Both readings of a zone east of UTC give the same offset |
| Rfc822.ZoneOfAsWrittenWest | libearth/codecs.py:260-265 | As written, `-HHMM` is read as `HH` hours east less `MM` minutes |
| Rfc822.WordsOfEncoded | libearth/codecs.py:234-240 | The text `encode` writes splits back into its six words |
| Rfc822.MatchEncoded | libearth/codecs.py:204-240 | The six words `encode` writes match the pattern with the value's fields |
| Rfc822.MatchWords | libearth/codecs.py:204-217 | Six words of the right shapes match, with the fields they spell |
| Rfc822.BuildEncoded | libearth/codecs.py:248-272 | A match of a written value builds the value back without its microseconds |
| Rfc822.DecodeEncoded | libearth/codecs.py:219-272 | The written words read back as the value, in the zone the last word names |
| Rfc822.DecodeAsWrittenEncoded | libearth/codecs.py:219-272 | The same for `decode` as written, in the zone its reading gives |
| Rfc822.RoundTrip | libearth/codecs.py:219-272 | Every aware value with an offset under 100 hours reads back as itself without microseconds, in an unnamed `FixedOffset` (a zero offset is `+0000`, not `utc`) |
| Rfc822.EncodeAsWrittenReadsBack | libearth/codecs.py:232-240 | As written, every offset is written modulo one day with a `+` sign, so a value west of UTC reads back a day further east |
| Rfc822.DecodeAsWrittenWest | libearth/codecs.py:260-265 | As written, every datetime a whole number of hours (1 to 99) west of UTC, written with the corrected `-HH00` zone, reads back as the same number of hours east |
| Rfc822.MatchIgnoresWeekday | libearth/codecs.py:206 | The weekday word is checked for its shape only |
| Rfc822.DecodeIgnoresWeekday | libearth/codecs.py:243-272 | `decode` gives the same result whatever the weekday word |
| Rfc822.MonthCase | libearth/codecs.py:251-253 | The pattern accepts `sep` but `MONTHS.index` does not, so `decode` fails with `DecodeError` |
| Rfc822.ZoneNameCase | libearth/codecs.py:267 | The pattern accepts `gmt` but the table lookup is a `KeyError` |
| Rfc822.ZoneNameGmt | libearth/codecs.py:169 | `GMT` names a zero offset |
| Revisions.IdentifierShape | libearth/session.py:61 | An identifier `[-a-z0-9_.]+` is one non-empty word without commas |
| Revisions.FromPairs | libearth/session.py:296-297 | `RevisionSet(pairs)` holds exactly the sessions the pairs name, each with the time of a pair naming it, the last pair winning |
| Revisions.Union | libearth/session.py:339-349 | The merge of two sets: every session of either, covering both, each time taken from one of them |
| Revisions.UnionAll | libearth/session.py:339-349 | The merge of any number of sets covers each of them and takes every time from one of them |
| Revisions.Merge | libearth/session.py:326-349 | `merge(*sets)` is a `TypeError` exactly when no set is given or one is not a `RevisionSet`; otherwise it covers `self` and every argument, and each time comes from one of them |
| Revisions.Values | libearth/session.py:341-345 | The sets held by the arguments, in order |
| Revisions.UnionAllAndLast | libearth/session.py:339-349 | Adding `self` after the arguments keeps the covering and the origin of each time |
| Revisions.CoversTransitive | libearth/session.py:351-368 | Holding every revision of another set is transitive |
| Revisions.UnionCommutative | libearth/session.py:346-349 | The merge does not depend on the order of the two sets |
| Revisions.UnionAssociative | libearth/session.py:346-349 | The merge is associative |
| Revisions.UnionIdempotent | libearth/session.py:346-349 | Merging a set with itself gives the set |
| Revisions.UnionLeast | libearth/session.py:346-349 | The merge is the least set covering both sets |
| Revisions.ContainsUnion | libearth/session.py:346-368 | A merged set contains a revision exactly when one of its parts does |
| Revisions.MergeSelf | libearth/session.py:326-349 | `s.merge(s) == s` |
| Revisions.CoveredBy | libearth/session.py:346-349 | A set covering `s` and holding only entries of `s` is `s` |
| Revisions.EnsureRevisionPair | libearth/session.py:258-283 | `ensure_revision_pair` succeeds exactly on a pair of a session and a `datetime`, returning the two; otherwise `TypeError` |
| Revisions.AtInstant | libearth/session.py:389 | The UTC `datetime` at an instant is well formed and stands for that instant |
| Revisions.EncodeByInstant | libearth/session.py:389-396 | `Rfc3339(prefer_utc=True).encode` of an aware value depends on its instant alone |
| Revisions.UtcAtInstant | libearth/session.py:389 | Converting to UTC gives the UTC value at the same instant |
| Revisions.UtcValue | libearth/session.py:389 | A UTC value is the UTC value at its own instant |
| Revisions.EncodeRevision | libearth/session.py:391-396 | `RevisionCodec.encode` fails with `EncodeError` on anything but a revision pair and on a naive time; otherwise it writes the identifier and the time in UTC |
| Revisions.DecodeRevision | libearth/session.py:398-411 | `RevisionCodec.decode` needs exactly two words, a valid identifier and an RFC 3339 time, else `DecodeError`; the result names a valid session and a representable instant |
| Revisions.FromWords | libearth/session.py:400-411 | A revision from the two words of a text, or `DecodeError` |
| Revisions.RevisionRoundTrip | libearth/session.py:391-411 | A revision of a valid session survives `encode` then `decode` |
| Revisions.RevisionWords | libearth/session.py:396 | An encoded revision is two words: the identifier and the UTC time |
| Revisions.DecodeWords | libearth/session.py:398-411 | Two words, a valid identifier and a time, decode to that session at that time's instant |
| Revisions.IdentifierTrailingNewline | libearth/session.py:61-76 | As written, `'a\n'` passes the identifier check, and its encoded revision reads back as a revision of session `a` |
| Revisions.NewlineWords | libearth/session.py:396-400 | The newline of `'a\n'` ends the first word of the encoded text |
| Revisions.Insert | libearth/session.py:454 | Putting a pair in front of the first pair that is not more recent keeps every element and adds the pair |
| Revisions.InsertNewestFirst | libearth/session.py:454 | Inserting into a newest-first list keeps it newest first |
| Revisions.InsertBounded | libearth/session.py:454 | Inserting keeps every time below a common bound |
| Revisions.ConsNewestFirst | libearth/session.py:454 | A pair at least as new as all pairs of a newest-first list can go in front |
| Revisions.SortNewestFirst | libearth/session.py:454 | `pairs.sort(key=updated_at, reverse=True)` gives a permutation of the pairs, newest first |
| Revisions.Listing | libearth/session.py:308-315 | `items()` lists every session of the set with its time, in the set's iteration order |
| Revisions.EncodeSet | libearth/session.py:446-455 | `RevisionSetCodec.encode` fails with `EncodeError` exactly on a non-`RevisionSet`; a set is written as an arrangement of exactly its items, newest first, each encoded and joined by `,\n` |
| Revisions.DecodeAll | libearth/session.py:460 | Decoding every piece succeeds exactly when each piece decodes, with one value per piece; otherwise the error is that of a failing piece |
| Revisions.DecodePairs | libearth/session.py:459-460 | Non-blank text split at its commas gives one revision per piece, or a `DecodeError` |
| Revisions.DecodeSet | libearth/session.py:457-460 | `RevisionSetCodec.decode`: blank text is the empty set; otherwise every session read is a valid identifier with a representable time |
| Revisions.JoinIndented | libearth/session.py:444-455 | Joining with `,\n` is joining with `,` the pieces prefixed by the newline |
| Revisions.DecodeEach | libearth/session.py:459-460 | Pieces that each decode give their revisions, in order |
| Revisions.TextShape | libearth/session.py:396 | An encoded revision holds no comma and starts with the identifier |
| Revisions.DecodeByWords | libearth/session.py:400 | `decode` depends only on the words of its text |
| Revisions.ListingPairs | libearth/session.py:296-315 | The items of a set, in any order, make the set again |
| Revisions.ListingMembers | libearth/session.py:308-315 | The listing holds exactly the items of the set |
| Revisions.ItemsPairs | libearth/session.py:296-297 | Pairs that are exactly the items of a set make that set |
| Revisions.SortedListing | libearth/session.py:451-454 | Sorting the items keeps their count, their validity and the set they make |
| Revisions.SplitJoined | libearth/session.py:444-459 | Comma-free texts joined by `,\n` split at the commas into the first text and the others behind their newline |
| Revisions.EncodedPieces | libearth/session.py:455-459 | The comma-separated pieces of an encoded set are the encoded pairs, after the first one behind a newline |
| Revisions.DecodeEncodedPieces | libearth/session.py:455-460 | Each piece of an encoded set reads back as its pair |
| Revisions.DecodeJoined | libearth/session.py:455-460 | The encoded pairs of a non-empty list read back as the set they make |
| Revisions.SetRoundTrip | libearth/session.py:446-460 | Every revision set of valid sessions survives `encode` then `decode`, whatever order its items come in |
| Sessions.MergeSingle | libearth/session.py:215-224 | A single-child slot of the merge is missing only when both sides lack it; a missing side yields the other; with both present, the newer element merged with the older one, or the newer value when it is not an element |
| Sessions.Remove | libearth/session.py:207 | `list.remove(x)` drops exactly one occurrence of a present value (one element shorter, the multiset less `x`) and leaves a list without `x` as it was |
| Sessions.IdMap | libearth/session.py:197-198 | The `identifiers` dictionary has exactly the ids of the older list as keys, each mapped to a value of the list that has that id |
| Sessions.SurvivorsMembers | libearth/session.py:199-213 | The older values left in the merged list are exactly those whose ids the newer list does not name |
| Sessions.Replacements | libearth/session.py:201-213 | Each newer value, at its own position, is replaced by its merge with the older value of its id (elements) or kept (other values) |
| Sessions.MergedListShape | libearth/session.py:194-213 | With ids unique within each list, the merged list slot is the older values whose ids the newer list lacks, in order, followed by the newer values in order, each merged with its older counterpart |
| Sessions.FoldClosed | libearth/session.py:200-213 | The merge loop keeps that closed form for every prefix of the newer values it has handled |
| Sessions.StepClosed | libearth/session.py:201-213 | One turn of the loop (look up, remove, merge, append) keeps the closed form when the value's id is a new one |
| Sessions.RemoveSurvivor | libearth/session.py:207 | Removing the older value of a still-present id from the merged list is the same as marking that id as gone |
| Sessions.MergeList | libearth/session.py:194-213 | The imperative loop over a list slot (copy, `identifiers` dictionary, remove/append) computes the specified merged list |
| Sessions.MergedBodyLists | libearth/session.py:194-225 | Every list slot of the merged document has the closed form above when ids are unique within each side |
| Sessions.MergeBody | libearth/session.py:193-233 | The walk over the child-tag slots builds the merged body: attributes and content from the newer document, each single slot merged, each list slot merged |
| Sessions.LatestUnique | libearth/session.py:108-111 | The time `revise` stamps is uniquely determined by the current time and the base revisions |
| Sessions.Latest | libearth/session.py:108-111 | The loop over the base revision times yields `max(now, max(times))`, or `now` when there are none |
| Sessions.MergedBases | libearth/session.py:235-239 | The merged bases name every session of either side's bases and of both revisions, cover both sides' bases, contain the newer revision, and contain the older one unless it is an earlier time of the same session |
| Sessions.PairOfRevisions | libearth/session.py:237 | `RevisionSet([a_rev, b_rev])` names both sessions, with the newer revision's time on a shared session |
| Sessions.MergeOfThree | libearth/session.py:235-238 | Merging a set with two others yields every session of the three and covers each of them |
| Sessions.Document.constructor | libearth/session.py:463-475 | A mergeable document holds its revision, its base revisions and its body |
| Sessions.Session.Revise | libearth/session.py:95-112 | The document gets a revision of this session at the latest of now and its base times; bases and body are kept |
| Sessions.Session.Pull | libearth/session.py:114-157 | A document already of this session is returned itself; otherwise a fresh copy with the same body and bases, whose revision names this session and keeps the time, or is revised when there was none |
| Sessions.Session.Merge | libearth/session.py:159-244 | Different kinds are a `TypeError`; without `force`, a side whose bases contain the other's revision is pulled, and otherwise the later side is the newer; the result is a fresh document with the merged body and bases, revised by this session |
| Sessions.SessionPool.New | libearth/session.py:71-84 | A non-string is a `TypeError`, an identifier outside the pattern a `ValueError`; otherwise the session interned under that identifier, made and interned on first use, with the pool otherwise unchanged |
| Sessions.RequestedIdentifier | libearth/session.py:75 | A non-empty string is used as is; `None` or the empty string gives the decimal hardware address, a valid all-digit identifier |
| Sessions.NewTwice | libearth/session.py:78-84 | Asking twice for one valid identifier gives the same session object; an invalid one fails both times with `ValueError` |
| Stage.MatchAt | libearth/stage.py:23 | The scanning expression at one index, alternatives in order: a placeholder at the start or after a character other than `{`, then `{{`, then `}}`; a match ends within the text |
| Stage.NextHit | libearth/stage.py:23 | `re.finditer` yields the leftmost match at or after the index |
| Stage.CompileFormatToPattern | libearth/stage.py:10-39 | The loop over the matches appends, for each, the literal text since the previous match and the match's expression, then the remaining text; the result is the compilation that `Stage.WrittenCompile` characterises |
| Stage.RenderMatches | libearth/stage.py:21-38 | Filling the wildcards of a compiled expression with newline-free text gives a text the tokens match |
| Stage.MatchRender | libearth/stage.py:21-38 | Every text the tokens match is such a filling |
| Stage.NoHitInPlain | libearth/stage.py:23 | No match starts in text free of braces |
| Stage.PlainTemplate | libearth/stage.py:36-37 | A template without braces compiles to one literal, itself |
| Stage.LiteralMatches | libearth/stage.py:33 | An escaped literal matches exactly its own text |
| Stage.PlainAccepts | libearth/stage.py:21-38 | A template without braces accepts exactly itself, or itself followed by one newline (`$`) |
| Stage.IntendedFindsChunk | libearth/stage.py:23 | Without the look-behind guard the scanner finds each placeholder or doubled brace right after the plain text before it |
| Stage.IntendedStep | libearth/stage.py:24-35 | Without the guard, a field compiles to its literal text and then its chunk's expression, followed by the rest |
| Stage.IntendedCompile | libearth/stage.py:10-39 | Without the guard, every well-formed template compiles to its literal fields, each followed by a wildcard or an escaped brace |
| Stage.AdjacentAsWritten | libearth/stage.py:23 | As written, `{0}{1}` compiles to a wildcard followed by the literal text `{1}` |
| Stage.AdjacentPlaceholders | libearth/stage.py:23 | So the text `xy` formatted from `{0}{1}` is not accepted, while without the guard both placeholders become wildcards |
| Stage.AdjacentIntended | libearth/stage.py:23 | Without the guard, `{0}{1}` compiles to two wildcards |
| Stage.ChunkStart | libearth/stage.py:23 | At a chunk, `\{\d+\}` matches exactly a placeholder, and the first two characters are the chunk's braces or its first digit |
| Stage.WrittenFindsChunk | libearth/stage.py:23 | As written, the scanner finds each doubled brace right after the plain text before it, and each placeholder that has plain text before it or starts the text, the guard's character given back as literal text |
| Stage.NoWrittenHitInPlain | libearth/stage.py:23 | As written, no match starts in plain text at the end |
| Stage.CompileFromHit | libearth/stage.py:24-35 | Each match contributes the literal text since the previous match and its own expression, and the loop goes on from the match's end |
| Stage.WrittenStep | libearth/stage.py:24-35 | As written, a field whose placeholder is not glued to the previous match compiles to its literal text and its chunk's expression, and the loop goes on after it |
| Stage.WrittenCompileFrom | libearth/stage.py:21-37 | As written, from any index the rest of a well-formed template compiles to its parts when every placeholder has plain text before it |
| Stage.WrittenCompile | libearth/stage.py:10-39 | As written, every well-formed template in which each placeholder starts the template or has plain text before it compiles to its literal fields, each followed by a wildcard for `{n}` or an escaped brace for `{{` and `}}`, then its tail |
| Stage.DocumentedExample | libearth/stage.py:12-13 | `string{0}like{1}this{{2}}` compiles to `^string(.*?)like(.*?)this\{2\}$` |
| Stage.PreInPost | tests/stage_test.py:45-54 | `pre{0}in{1}post` compiles to `^pre(.*?)in(.*?)post$`, which accepts `preandinandpost` |
| ClrXmlReader.CutFlatten | libearth/compat/clrxmlreader.py:150-155 | After reading a positive count, the chunks kept hold exactly the bytes after the ones read |
| ClrXmlReader.RemainingFlatten | libearth/compat/clrxmlreader.py:150-157 | `Read` leaves in the buffer exactly the bytes it did not deliver, and the buffer as it was when nothing was read |
| ClrXmlReader.CutAll | libearth/compat/clrxmlreader.py:150-152 | A count beyond all the buffered bytes empties the buffer |
| ClrXmlReader.OverwriteSlices | libearth/compat/clrxmlreader.py:144 | Copying a chunk into the array from an offset puts its bytes there and keeps every other byte |
| ClrXmlReader.OverwriteAppend | libearth/compat/clrxmlreader.py:142-148 | Copying one chunk right after another is copying their concatenation |
| ClrXmlReader.CopyTo | libearth/compat/clrxmlreader.py:144 | `CopyTo` writes the chunk's bytes into the array from the offset on, one by one, and changes nothing else |
| ClrXmlReader.IteratorStream.constructor | libearth/compat/clrxmlreader.py:95-102 | A new stream has read nothing, buffered nothing, has the whole iterable pending and no cached length |
| ClrXmlReader.IteratorStream.Consume | libearth/compat/clrxmlreader.py:104-114 | `consume` is true exactly when a chunk was left; it then moves the next chunk to the end of the buffer and counts its bytes; otherwise nothing changes |
| ClrXmlReader.ConsumeStep | libearth/compat/clrxmlreader.py:104-114 | Moving a chunk into the buffer keeps the bookkeeping: the buffer holds the yielded bytes not yet read, `length` counts the yielded bytes |
| ClrXmlReader.IteratorStream.CanRead | libearth/compat/clrxmlreader.py:116-117 | The stream can be read |
| ClrXmlReader.IteratorStream.CanSeek | libearth/compat/clrxmlreader.py:119-120 | The stream cannot seek |
| ClrXmlReader.IteratorStream.CanWrite | libearth/compat/clrxmlreader.py:122-123 | The stream cannot be written |
| ClrXmlReader.IteratorStream.GetPosition | libearth/compat/clrxmlreader.py:136-137 | The position is the bytes yielded less the bytes still buffered |
| ClrXmlReader.IteratorStream.GetLength | libearth/compat/clrxmlreader.py:125-134 | The length is the total size of all chunks and is cached; a sequence is summed without touching the buffer, an iterator is drained into the buffer; the position is kept |
| ClrXmlReader.IteratorStream.Drain | libearth/compat/clrxmlreader.py:131-132 | The `while consume()` loop moves every pending chunk into the buffer, after which the stream has yielded all the bytes |
| ClrXmlReader.IteratorStream.Fill | libearth/compat/clrxmlreader.py:140-142 | The first loop of `Read` pulls chunks only while fewer than `count` bytes are buffered, and stops with `count` bytes buffered or the iterator exhausted |
| ClrXmlReader.IteratorStream.Read | libearth/compat/clrxmlreader.py:139-159 | `Read` returns the smaller of `count` and the unread byte count, writes exactly the next unread bytes into the array from `offset` on, keeps the rest of the array and advances the position by what it read |
| ClrXmlReader.IteratorStream.Take | libearth/compat/clrxmlreader.py:143-159 | The copy-and-trim part of `Read` delivers the next unread bytes and drops them from the buffer |
| ClrXmlReader.CopyOut | libearth/compat/clrxmlreader.py:143-149 | The copy loop writes the first `min(count, total)` bytes of the buffered chunks into the array, and reports where it stopped so that the trimming leaves the unread bytes |
| ClrXmlReader.Trimmed | libearth/compat/clrxmlreader.py:150-155 | The two trimming branches (drop the used chunks, or keep the unread tail of the last one) leave exactly the unread chunks |
| ClrXmlReader.IteratorStream.Seek | libearth/compat/clrxmlreader.py:161-164 | `Seek` is an `InvalidOperationException` |
| ClrXmlReader.IteratorStream.SetLength | libearth/compat/clrxmlreader.py:166-169 | `SetLength` is an `InvalidOperationException` |
| ClrXmlReader.IteratorStream.Write | libearth/compat/clrxmlreader.py:171-174 | `Write` is an `InvalidOperationException` |
| Subscribe.HashAgreesWithEqual | libearth/subscribe.py:273-286 | Between two outlines of the same kind, `==` is symmetric and holds exactly when their hashed values (feed URL or label) agree |
| Subscribe.EqualNotSymmetric | libearth/subscribe.py:273-278 | Between an rss outline and a category with the same feed URL, `==` holds one way round and not the other |
| Subscribe.SubclassDecides | libearth/subscribe.py:273-286 | Between a plain outline and a `Subscription` or `Category`, Python's `==` runs the subclass's `__eq__` on either side |
| Subscribe.SlotsMembers | libearth/subscribe.py:85-92 | A feed URL or label is taken by a run of outlines exactly when one of them has it |
| Subscribe.FirstMeansEarliest | libearth/subscribe.py:87-111 | The children `__iter__` yields are exactly those no earlier child shares the feed URL or label with |
| Subscribe.Promote | libearth/subscribe.py:96-122 | The upgraded outline keeps the child's slot, label and creation time; a subscription gets a truthy id (the given one, or the SHA-1 of the feed URL) and keeps the feed URL; a category keeps its children |
| Subscribe.PromoteTwice | libearth/subscribe.py:93-95 | Upgrading an upgraded outline changes nothing |
| Subscribe.StopFrom | libearth/subscribe.py:87-107 | The pass raises at the first first-of-its-slot child that cannot be upgraded (no id and no feed URL), and not before |
| Subscribe.YieldsOnePerSlot | libearth/subscribe.py:84-122 | `__iter__` yields each slot of the children it passes exactly once, in child order, and only `Subscription` and `Category` objects |
| Subscribe.IterateTwice | libearth/subscribe.py:84-122 | After a complete pass, a second pass fails nowhere, changes no child and yields the same outlines |
| Subscribe.SubscriptionList.Iterate | libearth/subscribe.py:84-122 | The loop over the children with its two seen-sets yields the specified outlines, stores each upgraded one back at its index, and reports an `AttributeError` exactly when the pass stops early |
| Subscribe.ContainsShape | libearth/subscribe.py:124-159 | `in` is direct-child membership for an outline, each child compared with the outline as Python's `==` does (the upgraded class's `__eq__` runs when one side is plain), and False for anything else; `contains` is a `TypeError` for a non-outline; a recursive `contains` finds what `in` finds, answers `True` only for an outline somewhere in the tree, answers exactly whether it is there when no pass over a category raises, and is `AttributeError` when a pass reaches a child it cannot upgrade before a match |
| Subscribe.SearchSpec | libearth/subscribe.py:149-153 | The loop `for subcategory in self` from child `i` on: `True` only when a later category holds the outline; it fails only with `AttributeError` and only when a pass reaches a child it cannot upgrade; without such a child it answers exactly whether a later category holds the outline; with one and no match it fails |
| Subscribe.ContainsRecursivelySpec | libearth/subscribe.py:146-154 | The same for `contains(outline, recursively=True)` measured against the tree's members at any depth |
| Subscribe.ContainsRaisesOnBadChild | libearth/subscribe.py:84-107 | A plain rss child with neither an id nor a feed URL makes a recursive `contains` raise `AttributeError` for an outline that is not in the set |
| Subscribe.AddMakesMember | libearth/subscribe.py:161-182 | `add` types the value `'rss'` or `'category'`; it appends it stamped with the time exactly when no child of that kind holds its feed URL or label; when each child's type agrees with its class the value is then a member either way, and adding it again changes nothing |
| Subscribe.AddBlockedNotMember | libearth/subscribe.py:161-182 | A `Category` child whose type reads `'rss'` keeps out a plain `category` value with its label, yet compares by feed URL, so the value is not a member after `add` |
| Subscribe.SubscriptionList.Add | libearth/subscribe.py:161-182 | A non-outline is a `TypeError` and changes nothing; otherwise the scan over the children leaves them as `AddTo` specifies |
| Subscribe.WithoutMembers | libearth/subscribe.py:184-193 | `discard` keeps exactly the children that do not compare equal to the outline under Python's `==`, including the reflected `__eq__` of a `Subscription` or `Category` argument |
| Subscribe.DiscardRemoves | libearth/subscribe.py:184-193 | Discarding twice is discarding once; when each child compares with the outline as the outline compares with it, the outline is no longer a member afterwards |
| Subscribe.FirstEqual | libearth/subscribe.py:191 | `list.remove` removes the first child equal to the outline under Python's `==` |
| Subscribe.SubscriptionList.Discard | libearth/subscribe.py:184-193 | A non-outline is a `TypeError`; otherwise the `remove` loop leaves exactly the children not equal to the outline under Python's `==` |
| Subscribe.DiscardCategoryByLabel | libearth/subscribe.py:184-193 | Discarding a `Category` removes a plain rss child with its label: the category's `__eq__` runs and compares labels, although the child's own `==` would compare feed URLs |
| Subscribe.PlainFoundBySubscription | libearth/subscribe.py:155-159 | A plain outline of type `category` is in a set whose `Subscription` child has its feed URL, whatever the labels, because the subscription's `__eq__` runs |
| Subscribe.CategoriesAndSubscriptions | libearth/subscribe.py:221-239 | `categories` maps exactly the labels of the category children to the `Category` yielded for each; `subscriptions` holds exactly one `Subscription` per feed URL of the subscription children |
| Subscribe.RecursiveSubscriptionsUnion | libearth/subscribe.py:241-249 | `recursive_subscriptions` holds a subscription for exactly the feed URLs subscribed to directly or in a category at any depth |
| Subscribe.TitleRoundTrip | libearth/subscribe.py:395-407 | The title reads back as set, and setting it leaves the owner alone |
| Subscribe.OwnerRoundTrip | libearth/subscribe.py:409-439 | The owner reads back as set, except that one with all fields `None` reads back as `None`; setting it leaves the title alone, and setting `None` never creates a head |
| Subscribe.SubscriptionList.GetChildren | libearth/subscribe.py:389-393 | Reading the children makes an empty body when there is none and changes no child |
| Subscribe.SubscriptionList.SetTitle | libearth/subscribe.py:401-407 | The title setter updates the head as `WithTitle` specifies and leaves the body alone |
| Subscribe.SubscriptionList.SetOwner | libearth/subscribe.py:427-439 | The owner setter updates the head as `WithOwner` specifies and leaves the body alone |
| FeedLists.Or | libearth/feedlist.py:99 | `text or title` is one of the two, and the first exactly when it is non-empty |
| FeedLists.OrAgain | libearth/feedlist.py:99 | Defaulting twice to the same fallback is defaulting once |
| FeedLists.ListInsert | libearth/feedlist.py:129 | `list.insert` never fails: the value lands at the clamped index (negative indexes count from the end), the elements before it stay and the ones after it shift by one |
| FeedLists.ListInsertContents | libearth/feedlist.py:129 | Inserting adds exactly the one element, and inserting at the length is `append` |
| FeedLists.ItemPosition | libearth/feedlist.py:151-158 | An item index names an element exactly when it is within `-n .. n-1`, counting negative indexes from the end |
| FeedLists.Remove | libearth/feedlist.py:157-158 | `del s[p]` removes exactly the element at `p`, keeping the order of the rest |
| FeedLists.RemoveInserted | libearth/feedlist.py:129-158 | Deleting the element just inserted gives the list back |
| FeedLists.Feed.constructor | libearth/feedlist.py:192-203 | A feed keeps its type, title and urls, and its text defaults to the title |
| FeedLists.FeedCategory.constructor | libearth/feedlist.py:94-103 | A category starts with no children and no urls, its text defaulting to the title |
| FeedLists.BoundedUp | libearth/feedlist.py:131-140 | A bound on the nesting of categories that holds for some depth holds for any larger one |
| FeedLists.BoundedBelow | libearth/feedlist.py:131-140 | A category reachable from a bounded one is bounded by one level less |
| FeedLists.BoundedHasNoCycle | libearth/feedlist.py:116-127 | A category whose nesting is bounded is not inside itself |
| FeedLists.FeedCategory.Contains | libearth/feedlist.py:131-140 | `in` is a `TypeError` for a non-tree key; otherwise true exactly when the key is a direct child or lies in a category below; it always answers on an acyclic tree within the recursion budget |
| FeedLists.FeedCategory.Insert | libearth/feedlist.py:105-129 | A non-tree is a `TypeError`; a feed is inserted exactly when its url is new to this category, which then records it; a category is inserted only when it is not already below, does not contain this category and is not this category, and on an acyclic tree exactly then, and refused as `AlreadyExist` only for one of those reasons; a refusal changes nothing |
| FeedLists.FeedCategory.SetItem | libearth/feedlist.py:151-155 | `__setitem__` is a `TypeError` for a non-tree and an `IndexError` outside the list; otherwise it replaces that child and leaves `urls` alone |
| FeedLists.FeedCategory.DelItem | libearth/feedlist.py:157-158 | `__delitem__` is an `IndexError` outside the list; otherwise it removes that child and leaves `urls` alone |
| FeedLists.ReinsertAfterDelete | libearth/feedlist.py:110-158 | Because `__delitem__` keeps the url, a feed deleted from a category cannot be inserted there again |
| FeedLists.FeedList.constructor | libearth/feedlist.py:270-289 | A feed list without a document is titled `EarthReader`, with an empty root category of that title and nothing interned |
| FeedLists.FeedList.MakeFeed | libearth/feedlist.py:377-396 | `make_feed` returns the feed interned under `(type, title, xml_url)`, made and interned on first use; a feed already interned is returned itself with its `html_url` and `text` overwritten; `text` defaults to the title |
| FeedLists.FeedList.AddFeed | libearth/feedlist.py:360-364 | `add_feed` interns the feed and appends it to the root category exactly when the root does not hold its url yet |
| FeedLists.FeedList.Insert | libearth/feedlist.py:366-375 | `insert` looks the value up by its tree type, title and url: on a hit the interned feed is inserted and takes the value's `html_url` and `text`; otherwise the value itself is inserted; the root category's `urls` gain exactly the inserted feed's url, its title and text stay, and no interned feed but the one inserted on a hit changes |
| FeedLists.FeedFields | libearth/feedlist.py:412-424 | A childless outline becomes a feed of its type and urls, titled by its title or else its text |
| FeedLists.FeedOutline | libearth/feedlist.py:440-445 | A feed becomes a childless outline with its type, text, title and urls |
| FeedLists.FeedOutlineRoundTrip | libearth/feedlist.py:398-446 | Converting a childless outline to a feed and back keeps every attribute except that a missing title is filled from the text; converting a feed with non-empty title and text to an outline and back gives the feed |
| FeedLists.FeedList.ConvertFromOutline | libearth/feedlist.py:398-427 | An outline with children becomes a new category titled by its title or else its text, and the whole tree below it is `Built` from the outline: every nested outline with children a new category of the same title, every childless outline the feed interned under its key, in order; the interning map only grows; a childless outline always converts; the conversion succeeds only when no two childless children of one outline share an `xml_url` at any level (`NoSharedUrl`), fails with `AlreadyExist` only when two do, and with `RecursionError` only when the outline nests deeper than the budget |
| FeedLists.FeedList.ConvertChildren | libearth/feedlist.py:411-412 | The loop over the children converts each in turn and appends it; on success the category holds, in order, what each child outline was built into, and no two childless children share a url at any level; `AlreadyExist` only when two do, `RecursionError` only when the nesting exceeds the budget |
| FeedLists.FeedList.ConvertChild | libearth/feedlist.py:411-412 | One turn of that loop: the category's `urls` become the urls of the childless children converted so far, which stay distinct; a refused append of a feed means its url was already among them, and a fresh category is never refused as already present |
| FeedLists.Append | libearth/feedlist.py:412 | `append` inserts at the end, keeping the category's title and text; on failure nothing changes; a feed is appended exactly when its url is new and then recorded; a category leaves `urls` alone, is refused as `AlreadyExist` only when it is this category or either reaches the other, and is appended when neither does and both are bounded by the budget |
| FeedLists.LeafUrls | libearth/feedlist.py:109-115 | The urls `insert` records for the childless outlines among a run, in order: exactly theirs |
| FeedLists.UrlsStep | libearth/feedlist.py:109-115 | One more child: a childless one adds its url; the urls stay distinct exactly when it is new, and one already recorded makes the children share a url |
| FeedLists.BuiltBounded | libearth/feedlist.py:398-412 | A category built from an outline nesting fewer than `d` deep has every chain of subcategories shorter than `d` |
| FeedLists.ReachesBuilt | libearth/feedlist.py:131-139 | Every category `__contains__` can reach below a built category is one of the categories built for it |
| FeedLists.ChildFits | libearth/feedlist.py:116-127 | The category built from a child and the one holding its elder siblings' conversions do not reach each other, and are bounded when the outline's nesting fits the budget, so `insert`'s cycle checks pass |
| FeedLists.BuiltKept | libearth/feedlist.py:411-412 | What one conversion built stays built while later conversions of sibling outlines only add to the interning map and add new categories |
| FeedLists.AllBuiltKept | libearth/feedlist.py:411-412 | The same for every child converted so far |
| FeedLists.BuiltConverted | libearth/feedlist.py:398-427 | The deep relation gives the top-level shape and that of each child |
| FeedLists.Normal | libearth/feedlist.py:398-446 | The outline that converting in and back out writes: a childless outline as its feed, one with children as a `category` outline of the same title and text with its children normalised in order |
| FeedLists.BuiltOutline | libearth/feedlist.py:398-446 | The nested round trip: `convert_to_outline` of a tree built from an outline is its normal outline at every level, when each leaf's interned feed still carries what it was read from and the recursion budget covers the nesting |
| FeedLists.BuiltChildOutlines | libearth/feedlist.py:437-438 | The children's outlines are written back in order, each as its normal outline |
| FeedLists.CanonicalNormal | libearth/feedlist.py:398-446 | An outline already in the written form (non-empty title and text, categories typed `category` with text equal to title and no urls) survives the round trip unchanged |
| FeedLists.SharedFeed | libearth/feedlist.py:377-427 | Two childless outlines with the same key convert to the same feed object, wherever they sit |
| FeedLists.FeedList.ConvertToOutline | libearth/feedlist.py:429-446 | The result is exactly the recursive outline of the tree, `OutlineOf`: a feed becomes its outline; a category an outline of type `category` with its text, its title and the outlines of its children in order; `RecursionError` exactly when the categories nest deeper than the budget, and never on a tree bounded by it |
| FeedLists.ChildOutlinesSome | libearth/feedlist.py:437-438 | Each child's outline sits at the child's own position |
| FeedLists.ChildOutlinesNone | libearth/feedlist.py:437-438 | A child with no outline within the budget leaves its category without one |
| FeedLists.CategoryOutline | libearth/feedlist.py:431-438 | A category's outline has type `category`, the category's text and title, no urls, and one outline per child, a feed's own outline for a feed child |
| FeedLists.BoundedHasOutline | libearth/feedlist.py:429-438 | A category whose chains of subcategories are shorter than the budget has an outline |
| FeedLists.InsertMissesInterned | libearth/feedlist.py:366-375 | As written, inserting a second `Feed('rss', 't', 'u')` after `make_feed('rss', 't', 'u')` inserts the second object, not the interned one |
| FeedLists.FeedList.InsertIntended | libearth/feedlist.py:366-375 | With the lookup by the key `make_feed` uses, the interned feed is inserted and takes the value's `html_url` and `text` |
| FeedLists.InsertIntendedFindsInterned | libearth/feedlist.py:366-375 | With the intended lookup, the same two steps insert the interned feed |
| Schema.NewChild | libearth/schema.py:31-45 | `Child(...)` is a `TypeError` for an element type that is not a subclass of `Element` and exactly when both `required` and `multiple` are truthy; otherwise the flags are kept as booleans and are never both set |
| Schema.Lookup | libearth/schema.py:142 | `getattr(cls, name)` finds an attribute exactly when the class declares one of that name |
| Schema.ContentAttr | libearth/schema.py:163-172 | The attribute text is stored in is the first one in `dir()` order that holds a `Content` descriptor, or none when there is none |
| Schema.ContentText | libearth/schema.py:85 | `Content.__get__` answers the content, or `''` when there is none |
| Schema.InitArguments | libearth/schema.py:101-115 | `DocumentElement(...)` is a `TypeError` exactly for keywords with a positional argument or more than one positional argument, an assertion failure for keywords alone, and otherwise sets up a parser exactly when one iterable is given |
| Schema.Step | libearth/schema.py:129-175 | A start event pushes one frame named by its tag, the first one only for the document's tag; text extends the top frame only and needs an open frame; an end event pops one frame whose name must be the end tag |
| Schema.FrameStep | libearth/schema.py:129-175 | One event above a frame leaves the frames below alone and adds text to that frame only when nothing is open above it |
| Schema.BodyKeepsFrame | libearth/schema.py:129-175 | Events that stay inside an open element leave the frames below it alone and add to its frame exactly the text not inside a nested element |
| Schema.ElementRestoresStack | libearth/schema.py:129-175 | A complete element leaves the stack as it found it, and the frame its end tag pops holds exactly the text directly inside it |
| Schema.Element.constructor | libearth/schema.py:96-100 | A new element has no content and no children |
| Schema.SetChild | libearth/schema.py:63-67 | `Child.__set__` stores exactly an instance of the child's element class under its tag, and is an `AttributeError` otherwise, changing nothing |
| Schema.SetContent | libearth/schema.py:88-89 | `Content.__set__` replaces the text and nothing else |
| Schema.Document.constructor | libearth/schema.py:108-120 | A document made with an iterable has a parser over it; the stack starts empty and the document element has no content or children |
| Schema.Document.StartElement | libearth/schema.py:129-153 | `startElement` succeeds exactly when the specified step does; it then pushes a frame for the document element or for a new child element stored in its parent; a failure changes nothing |
| Schema.Document.Characters | libearth/schema.py:155-157 | `characters` is an `IndexError` on an empty stack and otherwise adds the text to the top frame only |
| Schema.Document.EndElement | libearth/schema.py:159-175 | `endElement` pops the top frame, checks its name, and when the element's class has a `Content` attribute sets the content to the frame's text chunks joined together |
| Schema.Document.Feed | libearth/schema.py:54-57 | Feeding a chunk runs its events in order, stopping at the first handler error, and leaves the stack as the specified run does |
| Schema.Document.PullChild | libearth/schema.py:47-61 | `Child.__get__` feeds chunks only while the child is absent, stops at the end of the input, only adds elements, and answers the child when it exists |
| Schema.Document.PullContent | libearth/schema.py:73-86 | `Content.__get__` feeds chunks only while the content is absent, stops at the end of the input, and answers the content or `''` |
| Sanitizer.ConcatChars | libearth/sanitizer.py:154 | Extending the output by a string's characters one by one joins back to the string |
| Sanitizer.Unichr | libearth/sanitizer.py:72-79 | `unichr(n)` is the character of code point `n`, and a `ValueError` outside the Unicode range |
| Sanitizer.CharRefHex | libearth/sanitizer.py:75-79 | `&#x…;` with hexadecimal digits decodes to the code point the digits spell |
| Sanitizer.CharRefDecimal | libearth/sanitizer.py:77-79 | `&#…;` with decimal digits decodes to the code point the digits spell |
| Sanitizer.CharRefUpperX | libearth/sanitizer.py:75-78 | As written, `&#X41;` reaches `int('X41')` and fails with `ValueError`, while the corrected decoding gives `A` |
| Sanitizer.CharRefHexIntended | libearth/sanitizer.py:75-76 | The corrected decoding reads hexadecimal digits after either `x` or `X` |
| Sanitizer.CleanPieces | libearth/sanitizer.py:63-79 | `MarkupTagCleaner` appends text as is, a known entity as its character and nothing for an unknown one, a character reference decoded (or fails), and nothing for tags, comments and declarations |
| Sanitizer.CleanRunTexts | libearth/sanitizer.py:18-30 | Without references, cleaning keeps exactly the text pieces in order: every tag, comment and declaration is gone |
| Sanitizer.MarkupTagCleaner.constructor | libearth/sanitizer.py:59-61 | A new cleaner has appended nothing |
| Sanitizer.MarkupTagCleaner.HandleData | libearth/sanitizer.py:63-64 | `handle_data` appends the text |
| Sanitizer.MarkupTagCleaner.HandleEntityRef | libearth/sanitizer.py:66-72 | `handle_entityref` appends the entity's character, or nothing for an unknown entity |
| Sanitizer.MarkupTagCleaner.HandleCharRef | libearth/sanitizer.py:74-79 | `handle_charref` appends the decoded character, or fails with `ValueError` before appending anything |
| Sanitizer.MarkupTagCleaner.Feed | libearth/sanitizer.py:29 | Feeding a run of handler calls appends their pieces in order and stops at the first error |
| Sanitizer.CleanHtml | libearth/sanitizer.py:18-30 | `clean_html` is the joined pieces of the run, or the `ValueError` a bad character reference raises |
| Sanitizer.CleanHtmlExample | libearth/sanitizer.py:18-30 | `<p>Hello <b>world</b></p>` cleans to `Hello world` |
| Sanitizer.Escape | libearth/sanitizer.py:125 | `cgi.escape` without `quote` leaves no `<` or `>`, but keeps every `"` |
| Sanitizer.EscapeQuoted | libearth/sanitizer.py:125 | `cgi.escape(s, quote=True)` leaves no `<`, `>` or `"` |
| Sanitizer.UnescapeEscape | libearth/sanitizer.py:125 | Reading the entities back undoes `cgi.escape` |
| Sanitizer.UnescapeEscapeQuoted | libearth/sanitizer.py:125 | Reading the entities back undoes `cgi.escape(s, quote=True)` |
| Sanitizer.EscapePrefix | libearth/sanitizer.py:125-126 | A prefix free of `&`, `<` and `>` starts the escaped value exactly when it starts the value |
| Sanitizer.CleanHref | libearth/sanitizer.py:115-126 | An `href` value is kept or emptied, and what is emitted never starts with a disallowed scheme and `:` |
| Sanitizer.CleanHrefIntended | libearth/sanitizer.py:115-126 | With scheme names compared case-insensitively, the emitted `href` never starts with a disallowed scheme in any case |
| Sanitizer.MixedCaseScheme | libearth/sanitizer.py:126 | As written, `JavaScript:x` passes the check; the corrected check empties it |
| Sanitizer.DeclEnd | libearth/sanitizer.py:90-93 | A `display` declaration matched at an index spans at least `display:` and one name character |
| Sanitizer.RemoveDisplayUnchanged | libearth/sanitizer.py:90-93 | A style with no `display` declaration is emitted unchanged |
| Sanitizer.RemoveLoneDisplay | libearth/sanitizer.py:90-93 | A style that is one `display` declaration is removed entirely |
| Sanitizer.SecondDisplaySurvives | libearth/sanitizer.py:90-93 | The match consumes the `;` that ends a declaration, so a `display` declaration right after a removed one survives |
| Sanitizer.SecondDisplayExample | libearth/sanitizer.py:90-93 | `display:a;display:b` keeps its second declaration |
| Sanitizer.Emitted | libearth/sanitizer.py:117-132 | The emitted attributes are a subsequence without `on…` names; every value is escaped, without `<` or `>`, and no `href` starts with a disallowed scheme |
| Sanitizer.EmittedHarmless | libearth/sanitizer.py:117-132 | Attributes that need no cleaning come through unchanged and in order |
| Sanitizer.OneHarmless | libearth/sanitizer.py:122-130 | A harmless attribute alone is written ` name="value"`, or ` name` when it has no value |
| Sanitizer.QuoteBreaksOut | libearth/sanitizer.py:125 | As written, a `"` in a value closes the quoted value early, so what follows it is written as further attributes, an event handler among them |
| Sanitizer.QuotedValueStaysQuoted | libearth/sanitizer.py:125 | With `quote=True` a value cannot close its quotes and still reads back intact |
| Sanitizer.StartStep | libearth/sanitizer.py:107-133 | A `script` start tag sets `ignore` and emits nothing; while ignoring, start tags emit nothing; otherwise the tag and its cleaned attributes are emitted |
| Sanitizer.EndStep | libearth/sanitizer.py:135-139 | A `script` end tag clears `ignore` and emits nothing; any other end tag is emitted whatever the state |
| Sanitizer.SanitizeStep | libearth/sanitizer.py:141-159 | Text, references and comments are emitted only when not ignoring and never change the flag; declarations emit nothing |
| Sanitizer.SanitizeRunAppend | libearth/sanitizer.py:50 | Running two parts of the handler calls is running the first, then the second from where the first left the flag |
| Sanitizer.IgnoredRun | libearth/sanitizer.py:107-159 | While ignoring, only end tags come through, and the flag stays set |
| Sanitizer.ScriptElementHidden | libearth/sanitizer.py:107-159 | A `script` element vanishes with everything inside it except end tags, whatever the starting state, and the flag is clear after it |
| Sanitizer.TextPassesThrough | libearth/sanitizer.py:141-144 | Outside a script, text passes through as is |
| Sanitizer.HtmlSanitizer.constructor | libearth/sanitizer.py:102-105 | A new sanitizer has appended nothing and is not ignoring |
| Sanitizer.HtmlSanitizer.HandleStartTag | libearth/sanitizer.py:107-133 | `handle_starttag` appends and sets the flag as the start step specifies |
| Sanitizer.HtmlSanitizer.HandleEndTag | libearth/sanitizer.py:135-139 | `handle_endtag` appends and sets the flag as the end step specifies |
| Sanitizer.HtmlSanitizer.HandleData | libearth/sanitizer.py:141-144 | `handle_data` appends the text unless ignoring |
| Sanitizer.HtmlSanitizer.HandleEntityRef | libearth/sanitizer.py:146-149 | `handle_entityref` re-emits the reference unless ignoring |
| Sanitizer.HtmlSanitizer.HandleCharRef | libearth/sanitizer.py:151-154 | `handle_charref` re-emits the reference, character by character, unless ignoring |
| Sanitizer.HtmlSanitizer.HandleComment | libearth/sanitizer.py:156-159 | `handle_comment` re-emits the comment unless ignoring |
| Sanitizer.HtmlSanitizer.Feed | libearth/sanitizer.py:50 | Feeding a run appends the pieces of each call in order and leaves the flag where the run specifies |
| Sanitizer.SanitizeHtml | libearth/sanitizer.py:33-51 | `sanitize_html` is the joined output of a fresh sanitizer over the run |
| RssBase.ParseLink | libearth/parser/rss_base.py:105-111 | No link exactly when the element has no text or empty text; otherwise an alternate `text/html` link to the text |
| RssBase.ParseText | libearth/parser/rss_base.py:133-134 | A text construct whose value is the element's text, or `''` when there is none |
| RssBase.FeedId | libearth/parser/rss_base.py:138-139 | A blank feed id is replaced by the feed URL, any other id is kept; with a non-empty feed URL the id is no longer blank |
| RssBase.WithSelf | libearth/parser/rss_base.py:140-141 | Afterwards there is a `self` link; when there was none, one to the feed URL goes in front of the links; otherwise they are unchanged |
| RssBase.Dated | libearth/parser/rss_base.py:143-144 | A missing entry update time is replaced by its publication time; a present one is kept |
| RssBase.EntryId | libearth/parser/rss_base.py:145-146 | A missing entry id becomes the first link's uri, or `''` without links; a present one is kept |
| RssBase.Latest | libearth/parser/rss_base.py:150-152 | The maximum of the present entry times is one of them and no earlier than any; there is none exactly when no entry has a time (where `max` raises `ValueError`) |
| RssBase.FeedUpdated | libearth/parser/rss_base.py:147-159 | The feed always ends with an update time: its own, else the latest entry time, else the current time |
| RssBase.Fallback | libearth/parser/rss_base.py:153-157 | Entries are handed the current time exactly when the feed had no update time and no entry had one, and then the very time the feed gets |
| RssBase.Title | libearth/parser/rss_base.py:160-161 | A missing title is replaced by the subtitle; the title stays missing only when both are |
| RssBase.FixIdempotent | libearth/parser/rss_base.py:137-161 | Each fix is idempotent: a second pass changes nothing |
| RssBase.EntriesNoLaterThanFeed | libearth/parser/rss_base.py:147-157 | When the feed had no update time, every entry ends with an update time no later than the feed's |
| RssBase.UndatedEntryRemains | libearth/parser/rss_base.py:147 | When the feed already has an update time, an entry with neither an update nor a publication time is left without one |
| RssBase.UndatedBesideDated | libearth/parser/rss_base.py:149-157 | The same happens beside a dated entry: the current time goes to entries only when no entry has a time |
| RssBase.FixedEntry | libearth/parser/rss_base.py:142-157 | A fixed entry has an id, keeps its links and publication time, and keeps a present id and update time |
| RssBase.FirstPassThenNow | libearth/parser/rss_base.py:142-157 | The first pass over the entries followed by the `except` loop is the fix with the current time as fallback |
| RssBase.FixedEntriesDated | libearth/parser/rss_base.py:142-159 | After the fix an entry has an update time exactly when it had an update or publication time, or the feed fell back to the current time |
| RssBase.Entry.constructor | libearth/parser/rss_base.py:142-146 | An entry holds its id, links, update and publication times |
| RssBase.FeedData.constructor | libearth/parser/rss_base.py:137-161 | The feed data holds its id, links, entries, update time, title and subtitle |
| RssBase.FeedData.MakeLegalAsAtom | libearth/parser/rss_base.py:137-161 | `make_legal_as_atom` sets the feed id, the links, the update time and the title as the functions above specify, fixes every entry in place with the right fallback, and keeps the entry objects and the subtitle |
| RssBase.FeedData.DateAndIdentify | libearth/parser/rss_base.py:142-146 | The loop over the entries fills each missing update time from the publication time and each missing id from the first link |
| RssBase.FeedData.FixUpdated | libearth/parser/rss_base.py:147-159 | The feed's update time becomes the specified one, and entries still without one get the fallback |
| RssBase.FeedData.FillMissing | libearth/parser/rss_base.py:155-157 | The `except` loop gives every entry still without an update time the current time and changes nothing else |
| Defaults.Get | libearth/defaults.py:101-103 | `dict(attrs).get(name)` is the value of an attribute of that name, and `None` when there is none |
| Defaults.GetLastWins | libearth/defaults.py:101-103 | A later attribute of the same name overrides an earlier one |
| Defaults.Score | libearth/defaults.py:88-92 | A media type scores at most 15, exactly 15 for `application/xml+opml`, and 0 when unknown or missing |
| Defaults.Recorded | libearth/defaults.py:98-106 | A tag is recorded exactly when it is an `a` or `link` with `rel` `blogroll` and a non-empty `href`, as its `href`, type and title |
| Defaults.Best | libearth/defaults.py:110-113 | `max(..., key=score)` picks a link of the highest score, the first such one on ties |
| Defaults.StrippedTitle | libearth/defaults.py:114 | A missing title stays missing; a present one is stripped |
| Defaults.LinkOf | libearth/defaults.py:108-114 | There is no link exactly when none was recorded; otherwise one recorded link's `href` and stripped title |
| Defaults.OpmlBeatsXml | libearth/defaults.py:88-113 | An OPML link is preferred to a generic XML link recorded before it |
| Defaults.FirstWinsTie | libearth/defaults.py:110-113 | Of two links with the same score the first one wins |
| Defaults.BlogrollLinkParser.constructor | libearth/defaults.py:95-96 | A new parser has recorded nothing |
| Defaults.BlogrollLinkParser.HandleStartTag | libearth/defaults.py:98-106 | `handle_starttag` appends exactly the tag's blogroll link, when it is one, and otherwise changes nothing; every recorded `href` is non-empty |
| Defaults.BlogrollLinkParser.GetLink | libearth/defaults.py:108-114 | `get_link` is `None` exactly when nothing was recorded, and otherwise the preferred link, with a non-empty `href` |
| Defaults.TestLinkRecorded | tests/defaults_test.py:10-11 | The test page's `<link rel="blogroll">` tag is recorded with its `href`, type and title |
| Defaults.BlogrollPageExample | tests/defaults_test.py:4-36 | The test page with a blogroll link yields `feeds.xml` and its title |
| Defaults.PlainPageExample | tests/defaults_test.py:19-39 | A page without a blogroll link yields nothing |

## Left out

- Network, file and thread code is not part of this model. This covers the crawlers, the repository, `FeedList.open_file`/`save_file`, `get_default_subscriptions` and the thread pools.
- The XML and HTML tokenisers are not modelled:
  - the `xml.sax` incremental parser that `schema.py` drives;
  - the SAX loop of `parse_revision`;
  - the `System.Xml` `XmlReader` of clrxmlreader.py;
  - `HTMLParser` under sanitizer.py and defaults.py.
  Each of these is replaced by the sequence of handler calls or parse events it would make. Buffering and CDATA handling therefore do not appear.
- Lower-casing of tag and attribute names is the tokeniser's work. `Defaults` and `Sanitizer` take the names as the tokeniser reports them.
- Several inputs are parameters instead of calls:
  - the clock (`tz.now()`), as `now`;
  - `uuid.getnode()`, as `node`;
  - the SHA-1 feed ids of subscribe.py, as `digest`;
  - the entity table of `MarkupTagCleaner`, as `entities`.
- The reflective walk over a document's child tags, attributes and content (`inspect_child_tags`, `inspect_attributes`, `setattr`) becomes the fixed `Document` record. The `Feed`-specific entry sorting at the end of `merge` (session.py:241-243) is left out: it needs feed code this model does not include.
- `Session.Merge` revises the merged document once, after its bases are set. The code revises it twice (session.py:234 and 240), and the second revision overwrites the first, so the final state is the same.
- `subscribe()` of subscribe.py is left out. It builds `Feed` and `Person` objects whose classes are not part of this model.
- subscribe.py and feedlist.py declare their fields with `Attribute`, `Text` and `Codec` descriptors that schema.py does not define. Those fields are plain record fields here.
- The metadata fields that `FeedList.__init__` copies from a parsed document are not modelled. In feed.py the categories also carry `xml_url` and `html_url`, and the model does not. The only code that reads them is the lookup key of feed.py's `FeedList.insert`, as described above.
- FeedLists.FeedCategory.Contains, FeedLists.FeedCategory.Insert and the conversions take `depth`, the number of nested calls that Python's recursion limit still allows. When a cyclic category graph exhausts it, they fail with `RecursionError`, just as the code does. The exact limit is not modelled.
- The model uses no `Version` codec and does not model `StrictVersion`.
- `Schema.Step`: a start tag for a descriptor with `multiple` set replaces the child, as the code does, instead of appending to a list. A `Content` tag is `NotImplementedError`, as in the code.
- `Sanitizer.Unichr` and `Sanitizer.DecodeCharRef` give `ValueError` for the surrogate code points U+D800 to U+DFFF. A Dafny `char` cannot hold them, whereas Python's `unichr` returns a lone surrogate. The limits of narrow Python builds are not modelled.
- `int()` accepts `_` digit separators and non-ASCII digits. The codecs, `Sanitizer` and `Stage` read ASCII digits only.
- Case-insensitive matching is folded over ASCII letters only. This affects the identifier pattern, the URL schemes and `DISALLOWED_STYLE_PATTERN`.
- `RssBase` leaves out five parsers, which rest on `strptime`, `email.utils` and `urlparse`:
  - `datetime_parser`;
  - `person_parser`;
  - `guess_default_tzinfo`;
  - `content_parser`;
  - `subtitle_parser`.
- `RssBase` represents a datetime by its instant. It therefore does not model the `TypeError` Python raises when `max` compares naive with aware values, and it does not tell apart equal instants in different zones.
- The Atom `Link` and `Text` elements that rss_base.py builds are records here.
- `make_legal_as_atom` does not make every entry legal, and neither does the model. When the feed has its own update time, or some entry has one, an entry with neither an update nor a publication time keeps no update time, although section 4.1.2 of RFC 4287 requires one. `RssBase.UndatedEntryRemains` and `RssBase.UndatedBesideDated` state this behaviour of the code.
- Years are written as four zero-padded digits in every encoder here. The code writes them with strftime's `%Y` (codecs.py:111 and :234). Below year 1900 that raises `ValueError` on Python 2.6 and 2.7, below year 1000 it raises on Python 3.2, and on Python 3.3 it writes fewer than four digits, which the `\d{4}` patterns do not read back. In the code the round trips below therefore hold for years from 1900 on; the model promises them from year 1. Each member affected follows.
- Rfc3339.Encode: writes `0999` for the year 999, where the code raises or writes `999`.
- Rfc3339.EncodeAsWritten: the same padded year.
- Rfc3339.HeaderRoundTrip: reads back the padded header, not the unpadded header of a year below 1000.
- Rfc3339.RoundTrip: holds here for years 1 to 9999, in the code only from 1900.
- Rfc3339.EncodeRoundTrip: the same range.
- Rfc3339.UtcRoundTrip: the same range.
- Rfc822.Encode: writes `0999` for the year 999, where the code raises or writes `999`.
- Rfc822.EncodeAsWritten: fails only on a non-datetime or a naive value; the code also raises below year 1900 on Python 2.
- Rfc822.RoundTrip: holds here for every year of the calendar, in the code only from 1900.
- Revisions.EncodeRevision: inherits the padded year of `Rfc3339.Encode`.
- Revisions.RevisionRoundTrip: holds here for every valid instant, in the code only from 1900.
- Revisions.EncodeSet: inherits the padded year of `Rfc3339.Encode`.
- Revisions.SetRoundTrip: holds here for every valid instant, in the code only from 1900.
- Sessions.SessionPool.New: validates the identifier with the corrected `Revisions.ValidIdentifier`, so `'a\n'` is a `ValueError` here, although session.py:76-77 accepts it (see Findings).
- Sessions.NewTwice: stated for the corrected identifier check, as `Sessions.SessionPool.New` is.
- Subscribe.ContainsShape: the upgrade of children that the iteration inside a recursive `contains` stores back in place (subscribe.py:106 and 121) is not carried out: `contains` is a function of the children and leaves them as they were. Where an outline that cannot be upgraded comes before the match, the search raises, so a match inside a category is promised only when no pass over the tree raises (`Complete`).
- Subscribe.AddMakesMember: promises that the value is a member after `add` only when every child's type agrees with its class. A `Category` whose type reads `'rss'` keeps out a value with its label without comparing equal to it, as `Subscribe.AddBlockedNotMember` shows.
- Schema.Document.EndElement: the code caches the name of a class's `Content` attribute as `__content__` on the class the first time one of its elements ends (schema.py:163-172). A subclass then inherits its base's cached value, including a cached `None`, and the code never sets the content of its elements. The model looks the `Content` attribute up afresh for every element, so it fills in content that the code would skip after a base class was closed first.
- FeedLists.FeedList.Insert: every value that is not a tree is `AttributeError`. In the code, an object that has `type` and `title` passes the key lookup at feedlist.py:367-368. It is then inserted as the interned feed when its key is interned, and otherwise it raises `TypeError` in `FeedCategory.insert`.
- FeedLists.BuiltOutline: requires that each leaf's interned feed still carries the data it was read from. Two childless outlines with one key share one feed, whose `html_url` and `text` are those of the later outline, so the earlier one is written back with the later one's values.
- Stage.CompileFormatToPattern: a digit in a placeholder is an ASCII digit. The code's `\d` in a `str` pattern also matches other Unicode decimal digits on Python 3 (stage.py:23).
- Sanitizer.DeclEnd: the `IGNORECASE` match of `DISALLOWED_STYLE_PATTERN` (sanitizer.py:90-93) folds ASCII letters only, like the other case-insensitive matches here; Python's folding of non-ASCII letters is not modelled.
- The `Calendar` covers years 1 to 9999, as Python's `datetime` does. A date outside that range is a `DecodeError` or `OverflowError` where the code raises one.

## Findings

| source | as written | input that shows it | evidently intended | confidence | as-written member | corrected member |
|---|---|---|---|---|---|---|
| libearth/codecs.py:119-121 | `Rfc3339.encode` formats the offset from `timedelta.seconds`, which is never negative | a datetime at `FixedOffset(-300)` is written `+19:00` and reads back a day further east | `-05:00` | high, not executed | Rfc3339.ZoneAsWrittenWest, Rfc3339.EncodeAsWrittenWest | Rfc3339.Encode, Rfc3339.RoundTrip |
| libearth/codecs.py:232-240 | `Rfc822.encode` formats the offset from `timedelta.seconds` with a `+` sign | a datetime west of UTC reads back with its offset modulo one day, which is a different instant | `-HHMM` for offsets west of UTC | high, not executed | Rfc822.EncodeAsWrittenReadsBack | Rfc822.Encode, Rfc822.RoundTrip |
| libearth/codecs.py:260-265 | `Rfc822.decode` multiplies only the minutes of a numeric zone by its sign | `-0500` reads as five hours east of UTC | five hours west of UTC | high, not executed | Rfc822.DecodeAsWrittenWest, Rfc822.ZoneOfAsWrittenWest | Rfc822.ZoneOf, Rfc822.ZoneRoundTrip |
| libearth/tz.py:62-63 | the default name floors `offset // 60` and takes `offset % 60`, both Python's floor operators | `FixedOffset(-90)` is named `-02:30` | `-01:30` | high, not executed | Tz.DefaultNameAsWrittenWest | Tz.DefaultName, Tz.DefaultNameReadsBack |
| libearth/codecs.py:315-318 | the text for `False` is chosen by testing whether `self.true` is a string, and indexes `self.false` | `Boolean(true=('yes', 'on'), false='no').encode(False)` writes `n`, which does not decode; `Boolean(false=('false', 'off')).encode(False)` returns the whole tuple | `no`, and `false` | high, not executed | Codecs.BooleanEncodeAsWrittenFirstCharacter, Codecs.BooleanEncodeAsWrittenTuple | Codecs.BooleanEncode, Codecs.BooleanRoundTrip |
| libearth/stage.py:23 | the scanning pattern consumes the character before a placeholder (its `[^{]` alternative), so the `}` that closes one placeholder cannot also lead into the next | `{0}{1}` compiles to a wildcard followed by the literal text `{1}` | two adjacent wildcards | high, not executed | Stage.AdjacentPlaceholders, Stage.AdjacentAsWritten | Stage.CompileIntended, Stage.IntendedCompile |
| libearth/sanitizer.py:125 | attribute values are escaped with `cgi.escape(value)`, which leaves `"` alone, and are then written between double quotes | the value `x" onclick="alert(1)` closes the quotes and adds an event-handler attribute | `cgi.escape(value, quote=True)` | high, not executed | Sanitizer.QuoteBreaksOut | Sanitizer.EscapeQuoted, Sanitizer.QuotedValueStaysQuoted |
| libearth/sanitizer.py:75-78 | `handle_charref` treats a reference as hex only after a lower-case `x` | `&#X41;` reaches `int('X41')`, which raises `ValueError` | `A` | high, not executed | Sanitizer.CharRefUpperX | Sanitizer.DecodeCharRefIntended, Sanitizer.CharRefHexIntended |
| libearth/sanitizer.py:126 | the disallowed-scheme test compares the `href` case-sensitively | `JavaScript:x` is kept | the link is emptied | medium, not executed | Sanitizer.MixedCaseScheme | Sanitizer.CleanHrefIntended |
| libearth/feedlist.py:366-375 | `FeedList.insert` looks up the interning map with the tree's `type` (`'feed'`), while `make_feed` keys it by `rsstype` | a feed made by `make_feed` and then inserted as a new object with the same type, title and URL is inserted as a second object | the interned object is inserted | high, not executed | FeedLists.InsertMissesInterned | FeedLists.FeedList.InsertIntended, FeedLists.InsertIntendedFindsInterned |
| libearth/session.py:61-76 | `re.match` with a pattern that ends in `$`, which also matches just before a final newline | the identifier `'a\n'` is accepted, and its revisions read back as revisions of session `a` | `'a\n'` is a `ValueError` | high, not executed | Revisions.IdentifierTrailingNewline | Revisions.ValidIdentifier, Revisions.RevisionRoundTrip |

The rest of the model uses the intended definitions where a later module depends on them:
- `Sessions.SessionPool.New` validates with `Revisions.ValidIdentifier`.
- Revisions are written with `Rfc3339.Encode` in UTC.

`Tz.MakeFixedOffset` names a zone as the code does, with `Tz.DefaultNameAsWritten`, so every zone the decoders build carries the code's name; `Tz.DefaultName` is the corrected partner. The handler models `Sanitizer.HtmlSanitizer` and `Stage.CompileFormatToPattern` follow the code as written, because their contracts describe the code's own output. The corrected definitions stand beside them, with their properties proved.
