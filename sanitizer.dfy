/**
 * sanitizer.py: `clean_html`, which strips every tag from an HTML text and
 * decodes its entity and character references, and `sanitize_html`, which
 * re-emits HTML without scripts, event-handler attributes, dangerous link
 * schemes and `display` style declarations.
 *
 * Both are `HTMLParser` subclasses that collect output chunks in a `fed`
 * list as handler callbacks arrive.  The tokenisation itself is not
 * modelled: a document is given as the sequence of handler calls the
 * parser makes for it.
 */
module Sanitizer {
  import opened Wrappers
  import Strings

  // ---------------------------------------------------------------------
  // Handler calls

  /** One `(name, value)` attribute pair; a bare attribute has no value. */
  datatype Attr = Attr(name: string, value: Option<string>)

  /** The handler calls `HTMLParser.feed` makes, in order. */
  datatype HtmlEvent =
    | StartTag(tag: string, attrs: seq<Attr>)
    | EndTag(tag: string)
    /** `<tag/>`: the default `handle_startendtag` calls the start then the end handler. */
    | StartEndTag(tag: string, attrs: seq<Attr>)
    | Data(text: string)
    | EntityRef(name: string)
    | CharRef(name: string)
    | Comment(text: string)
    /** Declarations and processing instructions, which neither class handles. */
    | Declaration(text: string)

  predicate StartsWith(s: string, p: string)
  {
    |p| <= |s| && s[..|p|] == p
  }

  /** `list.extend(text)` on a string adds its characters one by one. */
  function Chars(s: string): (r: seq<string>)
    ensures |r| == |s|
  {
    seq(|s|, i requires 0 <= i < |s| => [s[i]])
  }

  /** Extending by a string's characters joins back to the string itself. */
  lemma {:induction false} ConcatChars(s: string)
    ensures Strings.Concat(Chars(s)) == s
  {
    if s != [] {
      assert Chars(s)[1..] == Chars(s[1..]);
      ConcatChars(s[1..]);
      assert [s[0]] + s[1..] == s;
    }
  }

  // ---------------------------------------------------------------------
  // Character references: int() and unichr()

  /** `unichr(n)`: fails with `ValueError` outside the Unicode range. */
  function Unichr(n: int): (r: Result<char>)
    ensures r.Ok? ==> r.value as int == n
    ensures r.Err? ==> r.error == ValueError
    ensures 0 <= n < 0xD800 ==> r.Ok?
    ensures n < 0 || n > 0x10FFFF ==> r.Err?
  {
    if 0 <= n < 0xD800 || 0xDFFF < n <= 0x10FFFF then Ok(n as char) else Err(ValueError)
  }

  predicate IsHexDigit(c: char)
  {
    '0' <= c <= '9' || 'a' <= c <= 'f' || 'A' <= c <= 'F'
  }

  predicate AllHex(s: string)
  {
    forall i :: 0 <= i < |s| ==> IsHexDigit(s[i])
  }

  function HexValue(c: char): (d: nat)
    requires IsHexDigit(c)
    ensures d < 16
  {
    if c <= '9' then c as int - '0' as int
    else if c <= 'F' then c as int - 'A' as int + 10
    else c as int - 'a' as int + 10
  }

  /** The value of a string of hexadecimal digits. */
  function ParseHexDigits(s: string): nat
    requires AllHex(s)
  {
    if s == [] then 0 else ParseHexDigits(s[..|s| - 1]) * 16 + HexValue(s[|s| - 1])
  }

  /** The unsigned part of `int(t, 16)`: an optional `0x`/`0X` prefix, then one or more digits. */
  function UnsignedHex(t: string): Option<nat>
  {
    var body := if |t| >= 2 && t[0] == '0' && (t[1] == 'x' || t[1] == 'X') then t[2..] else t;
    if body != [] && AllHex(body) then Some(ParseHexDigits(body)) else None
  }

  /**
   * `int(text, 16)`: surrounding whitespace, an optional sign, an optional
   * `0x` prefix and hexadecimal digits; anything else is a `ValueError`,
   * here `None`.
   */
  function ParseHexInt(text: string): Option<int>
  {
    var t := Strings.Strip(text);
    if t != [] && (t[0] == '+' || t[0] == '-') then
      match UnsignedHex(t[1..]) {
        case None => None
        case Some(n) => Some(if t[0] == '-' then -(n as int) else n)
      }
    else
      match UnsignedHex(t) {
        case None => None
        case Some(n) => Some(n)
      }
  }

  /** `MarkupTagCleaner.handle_charref`'s decoding, as written: hex only after a lower-case `x`. */
  function DecodeCharRef(name: string): (r: Result<char>)
    ensures r.Err? ==> r.error == ValueError
  {
    var codepoint :=
      if StartsWith(name, "x") then ParseHexInt(name[1..]) else Strings.ParseInt(name);
    match codepoint {
      case None => Err(ValueError)
      case Some(n) => Unichr(n)
    }
  }

  /** The decoding the reference syntax calls for: hex after `x` or `X`. */
  function DecodeCharRefIntended(name: string): (r: Result<char>)
    ensures r.Err? ==> r.error == ValueError
  {
    var codepoint :=
      if StartsWith(name, "x") || StartsWith(name, "X") then ParseHexInt(name[1..])
      else Strings.ParseInt(name);
    match codepoint {
      case None => Err(ValueError)
      case Some(n) => Unichr(n)
    }
  }

  lemma HexNoSpace(h: string)
    requires h != [] && AllHex(h)
    ensures Strings.Strip(h) == h
  {
    assert IsHexDigit(h[0]) && IsHexDigit(h[|h| - 1]);
    Strings.StripUnchanged(h);
  }

  /** `&#x…;` with hexadecimal digits decodes to the code point those digits spell. */
  lemma CharRefHex(h: string)
    requires h != [] && AllHex(h)
    ensures DecodeCharRef("x" + h) == Unichr(ParseHexDigits(h))
  {
    assert ("x" + h)[1..] == h;
    assert StartsWith("x" + h, "x");
    HexNoSpace(h);
    if |h| >= 2 {
      assert h[1] != 'x' && h[1] != 'X' by { assert IsHexDigit(h[1]); }
    }
    assert h[0] != '+' && h[0] != '-' by { assert IsHexDigit(h[0]); }
  }

  /** `&#…;` with decimal digits decodes to the code point those digits spell. */
  lemma CharRefDecimal(d: string)
    requires d != [] && Strings.AllDigits(d)
    ensures DecodeCharRef(d) == Unichr(Strings.ParseDigits(d))
  {
    assert Strings.IsDigit(d[0]) && Strings.IsDigit(d[|d| - 1]);
    assert !StartsWith(d, "x");
    Strings.StripUnchanged(d);
  }

  /** As written, `&#X41;` reaches `int('X41')`, which raises `ValueError`. */
  lemma CharRefUpperX()
    ensures DecodeCharRef("X41") == Err(ValueError)
    ensures DecodeCharRefIntended("X41") == Ok('A')
  {
    assert !StartsWith("X41", "x");
    assert Strings.Strip("X41") == "X41" by {
      Strings.StripUnchanged("X41");
    }
    assert StartsWith("X41", "X");
    assert "X41"[1..] == "41";
    HexNoSpace("41");
    assert ParseHexDigits("41") == 0x41 by {
      assert "41"[..1] == "4";
      assert ""[..0] == "";
      assert "4"[..0] == "";
    }
  }

  /** The corrected decoding reads hex digits after either case of `x`. */
  lemma CharRefHexIntended(x: char, h: string)
    requires x == 'x' || x == 'X'
    requires h != [] && AllHex(h)
    ensures DecodeCharRefIntended([x] + h) == Unichr(ParseHexDigits(h))
  {
    assert ([x] + h)[1..] == h;
    assert StartsWith([x] + h, [x]);
    HexNoSpace(h);
    if |h| >= 2 {
      assert h[1] != 'x' && h[1] != 'X' by { assert IsHexDigit(h[1]); }
    }
    assert h[0] != '+' && h[0] != '-' by { assert IsHexDigit(h[0]); }
  }

  // ---------------------------------------------------------------------
  // clean_html

  /**
   * What `MarkupTagCleaner` appends for one handler call: text as is, a
   * known entity as its character, a character reference decoded; tags,
   * comments and declarations contribute nothing.  `entities` stands for
   * `htmlentitydefs.name2codepoint`.
   */
  function CleanPieces(entities: map<string, char>, e: HtmlEvent): (r: Result<seq<string>>)
    ensures e.Data? ==> r == Ok([e.text])
    ensures e.EntityRef? ==> r == Ok(if e.name in entities then [[entities[e.name]]] else [])
    ensures e.CharRef? ==> (r.Ok? <==> DecodeCharRef(e.name).Ok?)
    ensures e.CharRef? && r.Ok? ==> r.value == [[DecodeCharRef(e.name).value]]
    ensures !(e.Data? || e.EntityRef? || e.CharRef?) ==> r == Ok([])
  {
    match e {
      case Data(text) => Ok([text])
      case EntityRef(name) => Ok(if name in entities then [[entities[name]]] else [])
      case CharRef(name) =>
        match DecodeCharRef(name) {
          case Ok(c) => Ok([[c]])
          case Err(err) => Err(err)
        }
      case _ => Ok([])
    }
  }

  /** What a run of handler calls appends before it stops, and the error that stopped it. */
  datatype Outcome = Outcome(pieces: seq<string>, error: Option<Error>)

  function CleanRun(entities: map<string, char>, events: seq<HtmlEvent>): (r: Outcome)
    ensures r.error.Some? ==> r.error.value == ValueError
  {
    if events == [] then Outcome([], None)
    else
      match CleanPieces(entities, events[0]) {
        case Err(err) => Outcome([], Some(err))
        case Ok(p) =>
          var rest := CleanRun(entities, events[1..]);
          Outcome(p + rest.pieces, rest.error)
      }
  }

  /** The text pieces of a run, tags and everything else dropped. */
  function Texts(events: seq<HtmlEvent>): seq<string>
  {
    if events == [] then []
    else (if events[0].Data? then [events[0].text] else []) + Texts(events[1..])
  }

  /**
   * Without references, cleaning keeps exactly the text pieces, in order:
   * every tag, comment and declaration is gone.
   */
  lemma {:induction false} CleanRunTexts(entities: map<string, char>, events: seq<HtmlEvent>)
    requires forall i :: 0 <= i < |events| ==> !events[i].EntityRef? && !events[i].CharRef?
    ensures CleanRun(entities, events) == Outcome(Texts(events), None)
  {
    if events != [] {
      CleanRunTexts(entities, events[1..]);
    }
  }

  class MarkupTagCleaner {
    var fed: seq<string>

    constructor()
      ensures fed == []
    {
      fed := [];
    }

    method HandleData(d: string)
      modifies this
      ensures fed == old(fed) + CleanPieces(map[], Data(d)).value
    {
      fed := fed + [d];
    }

    method HandleEntityRef(entities: map<string, char>, name: string)
      modifies this
      ensures fed == old(fed) + CleanPieces(entities, EntityRef(name)).value
    {
      if name in entities {
        fed := fed + [[entities[name]]];
      }
    }

    /** Raises before appending anything when the reference does not decode. */
    method HandleCharRef(name: string) returns (r: Result<()>)
      modifies this
      ensures r.Ok? <==> CleanPieces(map[], CharRef(name)).Ok?
      ensures r.Err? ==> r.error == ValueError && fed == old(fed)
      ensures r.Ok? ==> fed == old(fed) + CleanPieces(map[], CharRef(name)).value
    {
      var codepoint: Option<int>;
      if StartsWith(name, "x") {
        codepoint := ParseHexInt(name[1..]);
      } else {
        codepoint := Strings.ParseInt(name);
      }
      if codepoint.None? {
        return Err(ValueError);
      }
      var c := Unichr(codepoint.value);
      if c.Err? {
        return Err(c.error);
      }
      fed := fed + [[c.value]];
      return Ok(());
    }

    /** `feed`: dispatches each call in order and stops at the first error. */
    method Feed(entities: map<string, char>, events: seq<HtmlEvent>) returns (r: Result<()>)
      modifies this
      ensures fed == old(fed) + CleanRun(entities, events).pieces
      ensures r.Ok? <==> CleanRun(entities, events).error.None?
      ensures r.Err? ==> r.error == CleanRun(entities, events).error.value
    {
      ghost var done: seq<string> := [];
      var i := 0;
      while i < |events|
        invariant 0 <= i <= |events|
        invariant fed == old(fed) + done
        invariant CleanedUpTo(entities, events, i, done)
      {
        var e := events[i];
        ghost var p := CleanPieces(entities, e);
        CleanStep(entities, events, i, done);
        if e.CharRef? {
          var res := HandleCharRef(e.name);
          if res.Err? {
            return res;
          }
        } else if e.Data? {
          HandleData(e.text);
        } else if e.EntityRef? {
          HandleEntityRef(entities, e.name);
        }
        done := done + p.value;
        i := i + 1;
      }
      assert events[i..] == [];
      return Ok(());
    }
  }

  /** The first `i` calls of a run appended `done` without an error. */
  ghost predicate CleanedUpTo(entities: map<string, char>, events: seq<HtmlEvent>, i: nat, done: seq<string>)
    requires i <= |events|
  {
    var rest := CleanRun(entities, events[i..]);
    CleanRun(entities, events) == Outcome(done + rest.pieces, rest.error)
  }

  lemma CleanStep(entities: map<string, char>, events: seq<HtmlEvent>, i: nat, done: seq<string>)
    requires i < |events| && CleanedUpTo(entities, events, i, done)
    ensures CleanPieces(entities, events[i]).Ok? ==>
      CleanedUpTo(entities, events, i + 1, done + CleanPieces(entities, events[i]).value)
    ensures CleanPieces(entities, events[i]).Err? ==>
      CleanRun(entities, events) == Outcome(done, Some(CleanPieces(entities, events[i]).error))
  {
    var rest := events[i..];
    assert rest[0] == events[i] && rest[1..] == events[i + 1..];
    var p := CleanPieces(entities, events[i]);
    if p.Ok? {
      var tail := CleanRun(entities, events[i + 1..]);
      assert CleanRun(entities, rest) == Outcome(p.value + tail.pieces, tail.error);
      Associative(done, p.value, tail.pieces);
    } else {
      assert CleanRun(entities, rest) == Outcome([], Some(p.error));
      assert done + [] == done;
    }
  }

  /** `clean_html`: the text of the document with all markup removed. */
  method CleanHtml(entities: map<string, char>, events: seq<HtmlEvent>) returns (r: Result<string>)
    ensures r.Ok? <==> CleanRun(entities, events).error.None?
    ensures r.Ok? ==> r.value == Strings.Concat(CleanRun(entities, events).pieces)
    ensures r.Err? ==> r.error == ValueError
  {
    var parser := new MarkupTagCleaner();
    assert parser.fed == [];
    var fed := parser.Feed(entities, events);
    assert parser.fed == CleanRun(entities, events).pieces;
    if fed.Err? {
      return Err(fed.error);
    }
    return Ok(Strings.Concat(parser.fed));
  }

  /** `clean_html('<p>Hello <b>world</b></p>') == 'Hello world'`. */
  lemma CleanHtmlExample(entities: map<string, char>)
    ensures Strings.Concat(CleanRun(entities, [StartTag("p", []), Data("Hello "), StartTag("b", []),
      Data("world"), EndTag("b"), EndTag("p")]).pieces) == "Hello world"
  {
    var events := [StartTag("p", []), Data("Hello "), StartTag("b", []),
      Data("world"), EndTag("b"), EndTag("p")];
    CleanRunTexts(entities, events);
    assert events[1..][1..][1..][1..] == [EndTag("b"), EndTag("p")];
    assert Texts(events) == ["Hello ", "world"];
  }

  // ---------------------------------------------------------------------
  // cgi.escape

  /** `cgi.escape(c)` for one character: `&`, `<` and `>` become entities, `"` stays. */
  function EscapeChar(c: char): string
  {
    if c == '&' then "&amp;" else if c == '<' then "&lt;" else if c == '>' then "&gt;" else [c]
  }

  /** `cgi.escape(s)`, without `quote=True`. */
  function Escape(s: string): (r: string)
    ensures '<' !in r && '>' !in r
    ensures '"' in s ==> '"' in r
  {
    if s == [] then "" else EscapeChar(s[0]) + Escape(s[1..])
  }

  /** `cgi.escape(s, quote=True)`: `"` becomes `&quot;` as well. */
  function EscapeQuoted(s: string): (r: string)
    ensures '<' !in r && '>' !in r && '"' !in r
  {
    if s == [] then ""
    else (if s[0] == '"' then "&quot;" else EscapeChar(s[0])) + EscapeQuoted(s[1..])
  }

  /** Reads the four entities back as the characters they stand for. */
  function Unescape(s: string): string
  {
    if s == [] then ""
    else if StartsWith(s, "&amp;") then "&" + Unescape(s[5..])
    else if StartsWith(s, "&lt;") then "<" + Unescape(s[4..])
    else if StartsWith(s, "&gt;") then ">" + Unescape(s[4..])
    else if StartsWith(s, "&quot;") then "\"" + Unescape(s[6..])
    else [s[0]] + Unescape(s[1..])
  }

  lemma UnescapeFront(piece: string, c: char, rest: string)
    requires piece == EscapeChar(c) || (c == '"' && piece == "&quot;")
    ensures Unescape(piece + rest) == [c] + Unescape(rest)
  {
    if piece == "&amp;" {
      UnescapeEntity(piece, 5, rest);
    } else if piece == "&lt;" {
      UnescapeEntity(piece, 4, rest);
    } else if piece == "&gt;" {
      UnescapeEntity(piece, 4, rest);
    } else if piece == "&quot;" {
      UnescapeEntity(piece, 6, rest);
    } else {
      var s := piece + rest;
      assert piece == [c] && c != '&';
      assert s[0] == c && s[1..] == rest;
    }
  }

  lemma UnescapeEntity(piece: string, n: nat, rest: string)
    requires piece == "&amp;" || piece == "&lt;" || piece == "&gt;" || piece == "&quot;"
    requires n == |piece|
    ensures Unescape(piece + rest) == [EntityChar(piece)] + Unescape(rest)
  {
    var s := piece + rest;
    assert s[..n] == piece && s[n..] == rest;
    assert StartsWith(s, piece);
    if piece != "&amp;" {
      assert s[1] != "&amp;"[1];
    }
    if piece == "&gt;" || piece == "&quot;" {
      assert s[1] != "&lt;"[1];
    }
    if piece == "&quot;" {
      assert s[1] != "&gt;"[1];
    }
  }

  function EntityChar(piece: string): char
  {
    if piece == "&amp;" then '&' else if piece == "&lt;" then '<' else if piece == "&gt;" then '>' else '"'
  }

  /** Unescaping undoes `cgi.escape`. */
  lemma {:induction false} UnescapeEscape(s: string)
    ensures Unescape(Escape(s)) == s
  {
    if s != [] {
      UnescapeEscape(s[1..]);
      UnescapeFront(EscapeChar(s[0]), s[0], Escape(s[1..]));
      assert [s[0]] + s[1..] == s;
    }
  }

  /** Unescaping undoes `cgi.escape(s, quote=True)`. */
  lemma {:induction false} UnescapeEscapeQuoted(s: string)
    ensures Unescape(EscapeQuoted(s)) == s
  {
    if s != [] {
      UnescapeEscapeQuoted(s[1..]);
      var piece := if s[0] == '"' then "&quot;" else EscapeChar(s[0]);
      UnescapeFront(piece, s[0], EscapeQuoted(s[1..]));
      assert [s[0]] + s[1..] == s;
    }
  }

  /** Escaping leaves a prefix free of `&`, `<` and `>` exactly where it was. */
  lemma {:induction false} EscapePrefix(s: string, p: string)
    requires '&' !in p && '<' !in p && '>' !in p
    ensures StartsWith(Escape(s), p) <==> StartsWith(s, p)
  {
    if p != [] && s != [] {
      var e := Escape(s);
      assert e == EscapeChar(s[0]) + Escape(s[1..]);
      if s[0] == '&' || s[0] == '<' || s[0] == '>' {
        assert e[0] == '&' && p[0] != '&';
        assert s[0] != p[0] by { assert p[0] in p; }
      } else {
        EscapePrefix(s[1..], p[1..]);
        assert e[0] == s[0] && e[1..] == Escape(s[1..]);
        if StartsWith(s, p) {
          assert s[1..][..|p| - 1] == s[..|p|][1..];
        }
        if StartsWith(e, p) {
          assert e[1..][..|p| - 1] == e[..|p|][1..];
        }
        if StartsWith(s[1..], p[1..]) && s[0] == p[0] {
          assert s[..|p|] == [s[0]] + s[1..][..|p| - 1];
        }
        if StartsWith(e[1..], p[1..]) && e[0] == p[0] {
          assert e[..|p|] == [e[0]] + e[1..][..|p| - 1];
        }
      }
    }
  }

  // ---------------------------------------------------------------------
  // Attribute values

  /** `DISALLOWED_SCHEMES`. */
  const Schemes: seq<string> := ["javascript", "jscript", "livescript", "vbscript", "data", "about", "mocha"]

  /** `value.startswith(disallowed_schemes)`, with each scheme followed by `:`; case-sensitive. */
  predicate HasDisallowedScheme(v: string)
  {
    exists i :: 0 <= i < |Schemes| && StartsWith(v, Schemes[i] + ":")
  }

  /** The `href` value that `handle_starttag` escapes and emits. */
  function CleanHref(v: string): (r: string)
    ensures !HasDisallowedScheme(r)
    ensures r == v || r == ""
  {
    if HasDisallowedScheme(v) then "" else v
  }

  function AsciiLower(s: string): (r: string)
    ensures |r| == |s|
  {
    seq(|s|, i requires 0 <= i < |s| => Strings.Lower(s[i]))
  }

  /** The scheme check URLs call for: scheme names are case-insensitive. */
  predicate HasDisallowedSchemeIntended(v: string)
  {
    HasDisallowedScheme(AsciiLower(v))
  }

  function CleanHrefIntended(v: string): (r: string)
    ensures !HasDisallowedSchemeIntended(r)
    ensures r == v || r == ""
  {
    if HasDisallowedSchemeIntended(v) then "" else v
  }

  /** As written, `JavaScript:` passes; the corrected check empties it. */
  lemma MixedCaseScheme()
    ensures CleanHref("JavaScript:x") == "JavaScript:x"
    ensures CleanHrefIntended("JavaScript:x") == ""
  {
    var v := "JavaScript:x";
    forall i | 0 <= i < |Schemes| ensures !StartsWith(v, Schemes[i] + ":") {
      assert v[1] == 'a' && v[4] == 'S';
    }
    assert AsciiLower(v) == "javascript:x";
    assert StartsWith(AsciiLower(v), Schemes[0] + ":");
  }

  /** ASCII letters and `-`: `[a-z-]` under IGNORECASE. */
  predicate IsNameChar(c: char)
  {
    Strings.IsAsciiLetter(c) || c == '-'
  }

  /** The end of the run of whitespace starting at `k` (`\s*`). */
  function SkipSpaces(v: string, k: nat): (r: nat)
    requires k <= |v|
    ensures k <= r <= |v|
    ensures r < |v| ==> !Strings.IsSpace(v[r])
    decreases |v| - k
  {
    if k < |v| && Strings.IsSpace(v[k]) then SkipSpaces(v, k + 1) else k
  }

  /** The end of the run of name characters starting at `k` (`[a-z-]*`). */
  function SkipName(v: string, k: nat): (r: nat)
    requires k <= |v|
    ensures k <= r <= |v|
    ensures r < |v| ==> !IsNameChar(v[r])
    decreases |v| - k
  {
    if k < |v| && IsNameChar(v[k]) then SkipName(v, k + 1) else k
  }

  /** `display` in any ASCII case at `k`. */
  predicate DisplayAt(v: string, k: nat)
  {
    k + 7 <= |v| && Strings.EqualIgnoringCase(v[k..k + 7], "display")
  }

  /**
   * The end of `\s*display\s*:\s*[a-z-]+\s*(?:;\s*|$)` matched at `k`, if
   * it matches there.  The greedy runs never need to give characters back:
   * what follows each of them cannot start with what it consumed.
   */
  function DeclEnd(v: string, k: nat): (r: Option<nat>)
    requires k <= |v|
    ensures r.Some? ==> k + 9 <= r.value <= |v|
  {
    var a := SkipSpaces(v, k);
    if !DisplayAt(v, a) then None
    else
      var c := SkipSpaces(v, a + 7);
      if c == |v| || v[c] != ':' then None
      else
        var d := SkipSpaces(v, c + 1);
        var e := SkipName(v, d);
        if e == d then None
        else
          var f := SkipSpaces(v, e);
          if f == |v| then Some(f)
          else if v[f] == ';' then Some(SkipSpaces(v, f + 1))
          else None
  }

  /**
   * A match of `DISALLOWED_STYLE_PATTERN` at `i`: its end and group 1.
   * The alternation tries `^` before `;`.
   */
  function MatchAt(v: string, i: nat): (r: Option<(nat, string)>)
    requires i <= |v|
    ensures r.Some? ==> i < r.value.0 <= |v|
  {
    if i == 0 && DeclEnd(v, 0).Some? then Some((DeclEnd(v, 0).value, ""))
    else if i < |v| && v[i] == ';' && DeclEnd(v, i + 1).Some? then Some((DeclEnd(v, i + 1).value, ";"))
    else None
  }

  /** `re.sub` from position `i`: each match is replaced by its group 1, scanning resumes after it. */
  function SubFrom(v: string, i: nat): (r: string)
    requires i <= |v|
    ensures |r| <= |v| - i
    decreases |v| - i
  {
    match MatchAt(v, i) {
      case Some((end, g)) => g + SubFrom(v, end)
      case None => if i == |v| then "" else [v[i]] + SubFrom(v, i + 1)
    }
  }

  /** `DISALLOWED_STYLE_PATTERN.sub('\\1', value)`. */
  function RemoveDisplay(v: string): string
  {
    SubFrom(v, 0)
  }

  lemma {:induction false} SubFromUnchanged(v: string, i: nat)
    requires i <= |v|
    requires forall j :: i <= j <= |v| ==> MatchAt(v, j).None?
    ensures SubFrom(v, i) == v[i..]
    decreases |v| - i
  {
    if i < |v| {
      SubFromUnchanged(v, i + 1);
      assert v[i..] == [v[i]] + v[i + 1..];
    }
  }

  /** A style with no `display` declaration is emitted unchanged. */
  lemma RemoveDisplayUnchanged(v: string)
    requires forall j :: 0 <= j <= |v| ==> MatchAt(v, j).None?
    ensures RemoveDisplay(v) == v
  {
    SubFromUnchanged(v, 0);
  }

  predicate AllNameChars(n: string)
  {
    forall k :: 0 <= k < |n| ==> IsNameChar(n[k])
  }

  lemma {:induction false} SkipNameRun(v: string, k: nat, j: nat)
    requires k <= j <= |v|
    requires forall m :: k <= m < j ==> IsNameChar(v[m])
    requires j == |v| || !IsNameChar(v[j])
    ensures SkipName(v, k) == j
    decreases j - k
  {
    if k < j {
      SkipNameRun(v, k + 1, j);
    }
  }

  /** `display:` and a value at the start of a style, then its end or a `;`: where the match ends. */
  lemma LeadingDeclaration(n: string, rest: string)
    requires n != [] && AllNameChars(n)
    requires rest == [] || rest[0] == ';'
    ensures var v := "display:" + n + rest;
      DeclEnd(v, 0) == Some(if rest == [] then |v| else SkipSpaces(v, 9 + |n|))
  {
    var v := "display:" + n + rest;
    assert v[..7] == "display" && v[7] == ':';
    assert DisplayAt(v, 0);
    assert SkipSpaces(v, 0) == 0 by { assert !Strings.IsSpace(v[0]); }
    assert SkipSpaces(v, 7) == 7 by { assert !Strings.IsSpace(v[7]); }
    assert v[8] == n[0] && IsNameChar(n[0]);
    assert SkipSpaces(v, 8) == 8 by { assert !Strings.IsSpace(v[8]); }
    forall m | 8 <= m < 8 + |n| ensures IsNameChar(v[m]) {
      assert v[m] == n[m - 8];
    }
    if rest != [] {
      assert v[8 + |n|] == ';';
    }
    SkipNameRun(v, 8, 8 + |n|);
    var e := 8 + |n|;
    assert SkipSpaces(v, e) == e by {
      if e < |v| { assert !Strings.IsSpace(v[e]); }
    }
  }

  /** A style that is a single `display` declaration is removed entirely. */
  lemma RemoveLoneDisplay(n: string)
    requires n != [] && AllNameChars(n)
    ensures RemoveDisplay("display:" + n) == ""
  {
    var v := "display:" + n;
    LeadingDeclaration(n, []);
    assert v + [] == v;
    assert MatchAt(v, 0) == Some((|v|, ""));
    assert SubFrom(v, |v|) == "";
  }

  /**
   * The match consumes the `;` that ends a declaration, so what follows a
   * removed declaration has no `;` or start of text before it: another
   * `display` declaration there survives.
   */
  lemma SecondDisplaySurvives(n: string, rest: string)
    requires n != [] && AllNameChars(n)
    requires ';' !in rest && (rest == [] || !Strings.IsSpace(rest[0]))
    ensures RemoveDisplay("display:" + n + ";" + rest) == rest
  {
    var v := "display:" + n + ";" + rest;
    var end := 9 + |n|;
    FirstDeclarationEnds(n, rest);
    assert v[end..] == rest;
    forall j | end <= j <= |v| ensures MatchAt(v, j).None? {
      if j < |v| {
        assert v[j] == rest[j - end];
      }
    }
    SubFromUnchanged(v, end);
  }

  lemma FirstDeclarationEnds(n: string, rest: string)
    requires n != [] && AllNameChars(n)
    requires rest == [] || !Strings.IsSpace(rest[0])
    ensures MatchAt("display:" + n + ";" + rest, 0) == Some((9 + |n|, ""))
  {
    var v := "display:" + n + ";" + rest;
    LeadingDeclaration(n, ";" + rest);
    assert "display:" + n + (";" + rest) == v;
    var end := 9 + |n|;
    assert SkipSpaces(v, end) == end by {
      if end < |v| { assert v[end] == rest[0]; }
    }
  }

  /** `display:a;display:b` keeps its second declaration. */
  lemma SecondDisplayExample()
    ensures RemoveDisplay("display:a;display:b") == "display:b"
  {
    assert AllNameChars("a");
    assert "display:" + "a" + ";" + "display:b" == "display:a;display:b";
    SecondDisplaySurvives("a", "display:b");
  }

  /** The value `handle_starttag` passes to `cgi.escape` for one attribute. */
  function CleanValue(name: string, value: string): string
  {
    if name == "href" then CleanHref(value)
    else if name == "style" then RemoveDisplay(value)
    else value
  }

  /**
   * The attributes `handle_starttag` emits, in order: `on…` names dropped,
   * bare names kept bare, every value cleaned and escaped.
   */
  function Emitted(attrs: seq<Attr>): (r: seq<Attr>)
    ensures |r| <= |attrs|
    ensures forall i :: 0 <= i < |r| ==> !StartsWith(r[i].name, "on")
    ensures forall i :: 0 <= i < |r| && r[i].value.Some? ==>
      '<' !in r[i].value.value && '>' !in r[i].value.value
    ensures forall i :: 0 <= i < |r| && r[i].name == "href" && r[i].value.Some? ==>
      !HasDisallowedScheme(r[i].value.value)
  {
    if attrs == [] then []
    else
      Emitted(attrs[..|attrs| - 1]) + Kept(attrs[|attrs| - 1])
  }

  /** What one attribute contributes to `Emitted`. */
  function Kept(a: Attr): (r: seq<Attr>)
    ensures |r| <= 1
    ensures r != [] ==> !StartsWith(r[0].name, "on")
    ensures r != [] && r[0].value.Some? ==> '<' !in r[0].value.value && '>' !in r[0].value.value
    ensures r != [] && r[0].name == "href" && r[0].value.Some? ==> !HasDisallowedScheme(r[0].value.value)
  {
    if StartsWith(a.name, "on") then []
    else if a.value.None? then [a]
    else
      var cleaned := CleanValue(a.name, a.value.value);
      EscapedHref(a.name, cleaned);
      [Attr(a.name, Some(Escape(cleaned)))]
  }

  lemma EscapedHref(name: string, cleaned: string)
    requires name == "href" ==> !HasDisallowedScheme(cleaned)
    ensures name == "href" ==> !HasDisallowedScheme(Escape(cleaned))
  {
    if name == "href" {
      SchemesUnescaped();
      forall i | 0 <= i < |Schemes| ensures !StartsWith(Escape(cleaned), Schemes[i] + ":") {
        EscapePrefix(cleaned, Schemes[i] + ":");
      }
    }
  }

  lemma SchemesUnescaped()
    ensures forall i :: 0 <= i < |Schemes| ==>
      '&' !in Schemes[i] + ":" && '<' !in Schemes[i] + ":" && '>' !in Schemes[i] + ":"
  {
  }

  /** An attribute that needs no cleaning: not a handler, not a link or style, nothing to escape. */
  predicate Harmless(a: Attr)
  {
    !StartsWith(a.name, "on") && a.name != "href" && a.name != "style"
    && (a.value.Some? ==> '&' !in a.value.value && '<' !in a.value.value && '>' !in a.value.value)
  }

  lemma {:induction false} EscapeUnchanged(s: string)
    requires '&' !in s && '<' !in s && '>' !in s
    ensures Escape(s) == s
  {
    if s != [] {
      assert s[0] in s;
      EscapeUnchanged(s[1..]);
      assert [s[0]] + s[1..] == s;
    }
  }

  /** Harmless attributes come through unchanged and in order. */
  lemma {:induction false} EmittedHarmless(attrs: seq<Attr>)
    requires forall i :: 0 <= i < |attrs| ==> Harmless(attrs[i])
    ensures Emitted(attrs) == attrs
  {
    if attrs != [] {
      var a := attrs[|attrs| - 1];
      EmittedHarmless(attrs[..|attrs| - 1]);
      if a.value.Some? {
        EscapeUnchanged(a.value.value);
      }
      assert attrs[..|attrs| - 1] + [a] == attrs;
    }
  }

  /** The chunks for one emitted attribute: ` name` or ` name="value"`. */
  function AttrChunks(a: Attr): seq<string>
  {
    if a.value.None? then [" ", a.name] else [" ", a.name, "=\"", a.value.value, "\""]
  }

  function Render(attrs: seq<Attr>): seq<string>
  {
    if attrs == [] then [] else Render(attrs[..|attrs| - 1]) + AttrChunks(attrs[|attrs| - 1])
  }

  /** The chunks `handle_starttag` appends for an attribute list. */
  function AttrPieces(attrs: seq<Attr>): seq<string>
  {
    Render(Emitted(attrs))
  }

  lemma AttrPiecesStep(attrs: seq<Attr>, a: Attr)
    ensures AttrPieces(attrs + [a]) == AttrPieces(attrs) +
      (if StartsWith(a.name, "on") then []
       else if a.value.None? then [" ", a.name]
       else [" ", a.name, "=\"", Escape(CleanValue(a.name, a.value.value)), "\""])
  {
    assert (attrs + [a])[..|attrs|] == attrs;
    var e := Emitted(attrs);
    var k := Kept(a);
    assert Emitted(attrs + [a]) == e + k;
    if k == [] {
      assert e + k == e;
    } else {
      assert (e + k)[..|e|] == e;
    }
  }

  /**
   * As written, a `"` in a value ends the quoted value early: whatever
   * follows it is read as further attributes, an event handler among them.
   */
  lemma QuoteBreaksOut(v: string, w: string)
    requires '&' !in v + w && '<' !in v + w && '>' !in v + w
    ensures Strings.Concat(AttrPieces([Attr("title", Some(v + "\" onclick=\"" + w))])) ==
      " title=\"" + v + "\" onclick=\"" + w + "\""
  {
    var x := v + "\" onclick=\"" + w;
    Spliced(v, w);
    assert !StartsWith("title", "on") by { assert "title"[..2][0] == 't'; }
    OneHarmless(Attr("title", Some(x)));
    ConcatFive(" ", "title", "=\"", x, "\"");
    var lead := " title=\"";
    TitleLead();
    Associative(lead, v + "\" onclick=\"", w);
    Associative(lead, v, "\" onclick=\"");
  }

  lemma TitleLead()
    ensures " " + "title" + "=\"" == " title=\""
  {
  }

  lemma Spliced(v: string, w: string)
    requires '&' !in v + w && '<' !in v + w && '>' !in v + w
    ensures var x := v + "\" onclick=\"" + w; '&' !in x && '<' !in x && '>' !in x
  {
    var x := v + "\" onclick=\"" + w;
    forall k | 0 <= k < |x| ensures x[k] != '&' && x[k] != '<' && x[k] != '>' {
      if k < |v| {
        assert x[k] == (v + w)[k];
      } else if k >= |v| + 11 {
        assert x[k] == (v + w)[k - 11];
      }
    }
  }

  /** A harmless attribute alone is written ` name="value"` (or ` name`), value untouched. */
  lemma OneHarmless(a: Attr)
    requires Harmless(a)
    ensures AttrPieces([a]) == AttrChunks(a)
  {
    EmittedHarmless([a]);
    assert [a][..0] == [];
    assert Render([a]) == Render([]) + AttrChunks(a);
    assert [] + AttrChunks(a) == AttrChunks(a);
  }

  lemma ConcatFive(a: string, b: string, c: string, d: string, e: string)
    ensures Strings.Concat([a, b, c, d, e]) == a + b + c + d + e
  {
    var p := [a, b, c, d, e];
    assert p[1..] == [b, c, d, e] && p[1..][1..] == [c, d, e];
    assert p[1..][1..][1..] == [d, e] && p[1..][1..][1..][1..] == [e];
    assert Strings.Concat([e]) == e;
    assert Strings.Concat([d, e]) == d + e;
    assert Strings.Concat([c, d, e]) == c + (d + e);
    assert Strings.Concat([b, c, d, e]) == b + (c + (d + e));
    assert Strings.Concat(p) == a + (b + (c + (d + e)));
    Associative(c, d, e);
    Associative(b, c + d, e);
    Associative(b, c, d);
    Associative(a, b + c + d, e);
    Associative(a, b + c, d);
    Associative(a, b, c);
  }

  /** With `quote=True` a value can no longer close its quotes, and still reads back intact. */
  lemma QuotedValueStaysQuoted(v: string)
    ensures '"' !in EscapeQuoted(v)
    ensures Unescape(EscapeQuoted(v)) == v
  {
    UnescapeEscapeQuoted(v);
  }

  // ---------------------------------------------------------------------
  // sanitize_html

  /** What `HtmlSanitizer` appends for one handler call, and its new `ignore` flag. */
  datatype Step = Step(pieces: seq<string>, ignore: bool)

  function StartStep(ignore: bool, tag: string, attrs: seq<Attr>): (r: Step)
    ensures tag == "script" ==> r == Step([], true)
    ensures tag != "script" && ignore ==> r == Step([], true)
    ensures tag != "script" && !ignore ==> r == Step(["<", tag] + AttrPieces(attrs) + [">"], false)
  {
    if tag == "script" then Step([], true)
    else if ignore then Step([], ignore)
    else Step(["<", tag] + AttrPieces(attrs) + [">"], ignore)
  }

  function EndStep(ignore: bool, tag: string): (r: Step)
    ensures tag == "script" ==> r == Step([], false)
    ensures tag != "script" ==> r == Step(["</", tag, ">"], ignore)
  {
    if tag == "script" then Step([], false) else Step(["</", tag, ">"], ignore)
  }

  function SanitizeStep(ignore: bool, e: HtmlEvent): (r: Step)
    ensures e.StartTag? ==> r == StartStep(ignore, e.tag, e.attrs)
    ensures e.EndTag? ==> r == EndStep(ignore, e.tag)
    ensures (e.Data? || e.EntityRef? || e.CharRef? || e.Comment?) ==>
      r.ignore == ignore && (ignore <==> r.pieces == [])
    ensures e.Declaration? ==> r == Step([], ignore)
  {
    match e {
      case StartTag(tag, attrs) => StartStep(ignore, tag, attrs)
      case EndTag(tag) => EndStep(ignore, tag)
      case StartEndTag(tag, attrs) =>
        var s := StartStep(ignore, tag, attrs);
        var t := EndStep(s.ignore, tag);
        Step(s.pieces + t.pieces, t.ignore)
      case Data(text) => Step(if ignore then [] else [text], ignore)
      case EntityRef(name) => Step(if ignore then [] else ["&", name, ";"], ignore)
      case CharRef(name) => Step(if ignore then [] else Chars("&#" + name + ";"), ignore)
      case Comment(text) => Step(if ignore then [] else ["<!-- ", text, " -->"], ignore)
      case Declaration(_) => Step([], ignore)
    }
  }

  function SanitizeRun(ignore: bool, events: seq<HtmlEvent>): Step
    decreases |events|
  {
    if events == [] then Step([], ignore)
    else
      var s := SanitizeStep(ignore, events[0]);
      var rest := SanitizeRun(s.ignore, events[1..]);
      Step(s.pieces + rest.pieces, rest.ignore)
  }

  /** Running two parts is running the first, then the second from where it left `ignore`. */
  lemma SplitFirst<T>(a: seq<T>, b: seq<T>)
    requires a != []
    ensures a == [a[0]] + a[1..] && a + b == [a[0]] + (a[1..] + b)
  {
  }

  lemma SanitizeRunCons(ignore: bool, e: HtmlEvent, rest: seq<HtmlEvent>)
    ensures SanitizeRun(ignore, [e] + rest) ==
      Step(SanitizeStep(ignore, e).pieces + SanitizeRun(SanitizeStep(ignore, e).ignore, rest).pieces,
           SanitizeRun(SanitizeStep(ignore, e).ignore, rest).ignore)
  {
    assert ([e] + rest)[0] == e && ([e] + rest)[1..] == rest;
  }

  lemma {:induction false} SanitizeRunAppend(ignore: bool, a: seq<HtmlEvent>, b: seq<HtmlEvent>)
    ensures SanitizeRun(ignore, a + b) ==
      Step(SanitizeRun(ignore, a).pieces + SanitizeRun(SanitizeRun(ignore, a).ignore, b).pieces,
           SanitizeRun(SanitizeRun(ignore, a).ignore, b).ignore)
    decreases |a|
  {
    if a == [] {
      assert a + b == b;
    } else {
      var e := a[0];
      var s := SanitizeStep(ignore, e);
      SanitizeRunAppend(s.ignore, a[1..], b);
      SplitFirst(a, b);
      SanitizeRunCons(ignore, e, a[1..]);
      SanitizeRunCons(ignore, e, a[1..] + b);
      var front := SanitizeRun(s.ignore, a[1..]);
      var back := SanitizeRun(front.ignore, b);
      Associative(s.pieces, front.pieces, back.pieces);
    }
  }

  lemma Unit<T>(x: seq<T>)
    ensures x + [] == x
  {
  }

  lemma Snoc<T>(s: seq<T>, i: nat)
    requires i <= |s|
    ensures i < |s| ==> s[..i + 1] == s[..i] + [s[i]]
    ensures i == |s| ==> s[..i] == s
  {
  }

  lemma StartPieces(fed: seq<string>, tag: string, attrs: seq<string>)
    ensures fed + ["<", tag] + attrs + [">"] == fed + (["<", tag] + attrs + [">"])
  {
  }

  lemma Associative<T>(x: seq<T>, y: seq<T>, z: seq<T>)
    ensures x + (y + z) == (x + y) + z
  {
  }

  /** Neither a start nor an end of a `script` element. */
  predicate NotScript(e: HtmlEvent)
  {
    (e.StartTag? || e.EndTag? || e.StartEndTag?) ==> e.tag != "script"
  }

  /** The end tags of a run, as `handle_endtag` re-emits them. */
  function EndTags(events: seq<HtmlEvent>): seq<string>
  {
    if events == [] then []
    else
      (if events[0].EndTag? || events[0].StartEndTag? then ["</", events[0].tag, ">"] else [])
      + EndTags(events[1..])
  }

  /** While `ignore` is set, only the end tags come through, and it stays set. */
  lemma {:induction false} IgnoredRun(events: seq<HtmlEvent>)
    requires forall i :: 0 <= i < |events| ==> NotScript(events[i])
    ensures SanitizeRun(true, events) == Step(EndTags(events), true)
  {
    if events != [] {
      IgnoredRun(events[1..]);
    }
  }

  /**
   * A `<script>` element vanishes with everything inside it except end
   * tags, whatever state the sanitizer was in, and `ignore` is clear after it.
   */
  lemma ScriptElementHidden(ignore: bool, attrs: seq<Attr>, body: seq<HtmlEvent>)
    requires forall i :: 0 <= i < |body| ==> NotScript(body[i])
    ensures SanitizeRun(ignore, [StartTag("script", attrs)] + body + [EndTag("script")]) ==
      Step(EndTags(body), false)
  {
    var open := [StartTag("script", attrs)];
    SanitizeRunAppend(ignore, open + body, [EndTag("script")]);
    SanitizeRunAppend(ignore, open, body);
    assert SanitizeRun(ignore, open) == Step([], true) by {
      assert open[1..] == [];
    }
    IgnoredRun(body);
    assert SanitizeRun(true, [EndTag("script")]) == Step([], false) by {
      assert [EndTag("script")][1..] == [];
    }
  }

  /** Outside a script, text passes through as is. */
  lemma {:induction false} TextPassesThrough(events: seq<HtmlEvent>)
    requires forall i :: 0 <= i < |events| ==> events[i].Data?
    ensures SanitizeRun(false, events) == Step(Texts(events), false)
  {
    if events != [] {
      TextPassesThrough(events[1..]);
    }
  }

  class HtmlSanitizer {
    var fed: seq<string>
    var ignore: bool

    constructor()
      ensures fed == [] && !ignore
    {
      fed := [];
      ignore := false;
    }

    method HandleStartTag(tag: string, attrs: seq<Attr>)
      modifies this
      ensures fed == old(fed) + StartStep(old(ignore), tag, attrs).pieces
      ensures ignore == StartStep(old(ignore), tag, attrs).ignore
    {
      if tag == "script" {
        ignore := true;
        Unit(fed);
        return;
      } else if ignore {
        Unit(fed);
        return;
      }
      fed := fed + ["<", tag];
      ghost var head := fed;
      Unit(head);
      for i := 0 to |attrs|
        invariant fed == head + AttrPieces(attrs[..i]) && !ignore
      {
        var a := attrs[i];
        ghost var before := fed;
        if !StartsWith(a.name, "on") {
          if a.value.None? {
            fed := fed + [" ", a.name];
          } else {
            fed := fed + [" ", a.name, "=\"", Escape(CleanValue(a.name, a.value.value)), "\""];
          }
        } else {
          Unit(fed);
        }
        ghost var chunk := fed[|before|..];
        assert fed == before + chunk;
        AttrPiecesStep(attrs[..i], a);
        Snoc(attrs, i);
        Associative(head, AttrPieces(attrs[..i]), chunk);
      }
      Snoc(attrs, |attrs|);
      fed := fed + [">"];
      StartPieces(old(fed), tag, AttrPieces(attrs));
    }

    method HandleEndTag(tag: string)
      modifies this
      ensures fed == old(fed) + EndStep(old(ignore), tag).pieces
      ensures ignore == EndStep(old(ignore), tag).ignore
    {
      if tag == "script" {
        ignore := false;
        return;
      }
      fed := fed + ["</", tag, ">"];
    }

    method HandleData(d: string)
      modifies this
      ensures fed == old(fed) + SanitizeStep(old(ignore), Data(d)).pieces
      ensures ignore == old(ignore)
    {
      if ignore {
        return;
      }
      fed := fed + [d];
    }

    method HandleEntityRef(name: string)
      modifies this
      ensures fed == old(fed) + SanitizeStep(old(ignore), EntityRef(name)).pieces
      ensures ignore == old(ignore)
    {
      if ignore {
        return;
      }
      fed := fed + ["&", name, ";"];
    }

    method HandleCharRef(name: string)
      modifies this
      ensures fed == old(fed) + SanitizeStep(old(ignore), CharRef(name)).pieces
      ensures ignore == old(ignore)
    {
      if ignore {
        return;
      }
      fed := fed + Chars("&#" + name + ";");
    }

    method HandleComment(data: string)
      modifies this
      ensures fed == old(fed) + SanitizeStep(old(ignore), Comment(data)).pieces
      ensures ignore == old(ignore)
    {
      if ignore {
        return;
      }
      fed := fed + ["<!-- ", data, " -->"];
    }

    /** `feed`: dispatches each call in order. */
    method Feed(events: seq<HtmlEvent>)
      modifies this
      ensures fed == old(fed) + SanitizeRun(old(ignore), events).pieces
      ensures ignore == SanitizeRun(old(ignore), events).ignore
    {
      ghost var done: seq<string> := [];
      for i := 0 to |events|
        invariant fed == old(fed) + done
        invariant SanitizedUpTo(old(ignore), events, i, done, ignore)
      {
        var e := events[i];
        SanitizeStepIn(old(ignore), events, i, done, ignore);
        ghost var s := SanitizeStep(ignore, e);
        ghost var before := fed;
        match e {
          case StartTag(tag, attrs) => HandleStartTag(tag, attrs);
          case EndTag(tag) => HandleEndTag(tag);
          case StartEndTag(tag, attrs) =>
            ghost var started := StartStep(ignore, tag, attrs);
            HandleStartTag(tag, attrs);
            HandleEndTag(tag);
            Associative(before, started.pieces, EndStep(started.ignore, tag).pieces);
          case Data(text) => HandleData(text);
          case EntityRef(name) => HandleEntityRef(name);
          case CharRef(name) => HandleCharRef(name);
          case Comment(text) => HandleComment(text);
          case Declaration(_) =>
        }
        assert fed == before + s.pieces;
        Associative(old(fed), done, s.pieces);
        done := done + s.pieces;
      }
      assert events[|events|..] == [];
    }
  }

  /** The first `i` calls of a run appended `done` and left the flag at `ignore`. */
  ghost predicate SanitizedUpTo(start: bool, events: seq<HtmlEvent>, i: nat, done: seq<string>, ignore: bool)
    requires i <= |events|
  {
    var rest := SanitizeRun(ignore, events[i..]);
    SanitizeRun(start, events) == Step(done + rest.pieces, rest.ignore)
  }

  lemma SanitizeStepIn(start: bool, events: seq<HtmlEvent>, i: nat, done: seq<string>, ignore: bool)
    requires i < |events| && SanitizedUpTo(start, events, i, done, ignore)
    ensures SanitizedUpTo(start, events, i + 1, done + SanitizeStep(ignore, events[i]).pieces,
      SanitizeStep(ignore, events[i]).ignore)
  {
    assert events[i..] == [events[i]] + events[i + 1..];
    SanitizeRunCons(ignore, events[i], events[i + 1..]);
    var s := SanitizeStep(ignore, events[i]);
    var tail := SanitizeRun(s.ignore, events[i + 1..]);
    Associative(done, s.pieces, tail.pieces);
  }

  /** `sanitize_html`: the joined output of a fresh sanitizer. */
  method SanitizeHtml(events: seq<HtmlEvent>) returns (r: string)
    ensures r == Strings.Concat(SanitizeRun(false, events).pieces)
  {
    var parser := new HtmlSanitizer();
    assert !parser.ignore && parser.fed == [];
    parser.Feed(events);
    assert parser.fed == SanitizeRun(false, events).pieces;
    return Strings.Concat(parser.fed);
  }
}
