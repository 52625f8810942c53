/**
 * `compile_format_to_pattern` of `libearth.stage`: turns a `str.format`
 * template such as `'pre{0}in{1}post'` into an anchored regular
 * expression in which every `{n}` is a wildcard and `{{`, `}}` are literal
 * braces.  The expression is kept as a list of tokens; `Accepts` gives
 * the meaning of `re.match` on `'^' + … + '$'`.
 */
module Stage {
  import opened Wrappers

  /** A piece of the compiled expression: escaped literal text, or `(.*?)`. */
  datatype Token = Lit(text: string) | Wild

  /** What a match of the scanning expression found. */
  datatype Kind = Placeholder | OpenBrace | CloseBrace

  /** A match: the literal text before it ends at `j`, and the match itself at `end`. */
  datatype Hit = Hit(kind: Kind, j: nat, end: nat)

  predicate IsDigit(c: char)
  {
    '0' <= c <= '9'
  }

  /** The index just past the run of digits that starts at `k`. */
  function DigitsEnd(s: string, k: nat): (e: nat)
    requires k <= |s|
    ensures k <= e <= |s|
    decreases |s| - k
  {
    if k < |s| && IsDigit(s[k]) then DigitsEnd(s, k + 1) else k
  }

  /** `\{\d+\}` at index `q`: the index just past its closing brace. */
  function PlaceholderAt(s: string, q: nat): (r: Option<nat>)
    requires q <= |s|
    ensures r.Some? ==> q + 3 <= r.value <= |s|
  {
    if q < |s| && s[q] == '{' then
      var e := DigitsEnd(s, q + 1);
      if q + 1 < e < |s| && s[e] == '}' then Some(e + 1) else None
    else
      None
  }

  /**
   * The scanning expression `(^|[^{])\{\d+\}|(\{\{)|(\}\})` tried at index
   * `p`, alternatives in order: a placeholder at the very start, a
   * placeholder after a character other than `{` (which stays literal
   * text), then `{{`, then `}}`.
   */
  function MatchAt(s: string, p: nat): (r: Option<Hit>)
    requires p <= |s|
    ensures r.Some? ==> p <= r.value.j < r.value.end <= |s|
  {
    if p == 0 && PlaceholderAt(s, 0).Some? then Some(Hit(Placeholder, 0, PlaceholderAt(s, 0).value))
    else if p < |s| && s[p] != '{' && PlaceholderAt(s, p + 1).Some? then
      Some(Hit(Placeholder, p + 1, PlaceholderAt(s, p + 1).value))
    else if p + 2 <= |s| && s[p] == '{' && s[p + 1] == '{' then Some(Hit(OpenBrace, p, p + 2))
    else if p + 2 <= |s| && s[p] == '}' && s[p + 1] == '}' then Some(Hit(CloseBrace, p, p + 2))
    else None
  }

  /** The next match of `re.finditer` at or after index `from`: the leftmost one. */
  function NextHit(s: string, from: nat): (r: Option<Hit>)
    requires from <= |s|
    ensures r.Some? ==> from <= r.value.j < r.value.end <= |s|
    decreases |s| - from
  {
    if from == |s| then None
    else if MatchAt(s, from).Some? then MatchAt(s, from)
    else NextHit(s, from + 1)
  }

  /** The expression a match contributes. */
  function TokenOf(k: Kind): Token
  {
    match k
    case Placeholder => Wild
    case OpenBrace => Lit("{")
    case CloseBrace => Lit("}")
  }

  /** The tokens the loop appends from index `i` on, up to the end anchor. */
  function CompileFrom(s: string, i: nat): seq<Token>
    requires i <= |s|
    decreases |s| - i
  {
    match NextHit(s, i)
    case None => if |s| > i then [Lit(s[i..])] else []
    case Some(h) => [Lit(s[i..h.j]), TokenOf(h.kind)] + CompileFrom(s, h.end)
  }

  function Compile(s: string): seq<Token>
  {
    CompileFrom(s, 0)
  }

  /**
   * `compile_format_to_pattern`: for each match, the escaped text since
   * the previous match and the match's own expression; then the rest of
   * the text.
   */
  method CompileFormatToPattern(format: string) returns (pattern: seq<Token>)
    ensures pattern == Compile(format)
  {
    pattern := [];
    var i := 0;
    var m := NextHit(format, 0);
    while m.Some?
      invariant i <= |format| && m == NextHit(format, i)
      invariant pattern + CompileFrom(format, i) == Compile(format)
      decreases |format| - i
    {
      var h := m.value;
      var chunk;
      if h.kind == OpenBrace {
        chunk := Lit("{");
      } else if h.kind == CloseBrace {
        chunk := Lit("}");
      } else {
        chunk := Wild;
      }
      var step := [Lit(format[i..h.j]), chunk];
      CompileFromHit(format, i, h);
      assert chunk == TokenOf(h.kind);
      assert pattern + CompileFrom(format, i) == (pattern + step) + CompileFrom(format, h.end);
      pattern := pattern + step;
      i := h.end;
      m := NextHit(format, i);
    }
    if |format| > i {
      pattern := pattern + [Lit(format[i..])];
    }
  }

  // ---------------------------------------------------------------------
  // What the compiled expression matches

  /** `.` matches every character but a newline. */
  predicate NoNewline(t: string)
  {
    forall k :: 0 <= k < |t| ==> t[k] != '\n'
  }

  /** The tokens match the whole of `t`. */
  ghost predicate MatchesAll(ts: seq<Token>, t: string)
    decreases |ts|
  {
    if ts == [] then t == []
    else match ts[0]
      case Lit(l) => |l| <= |t| && t[..|l|] == l && MatchesAll(ts[1..], t[|l|..])
      case Wild => exists k :: 0 <= k <= |t| && NoNewline(t[..k]) && MatchesAll(ts[1..], t[k..])
  }

  /** `re.match` of `'^' + … + '$'`: `$` also matches just before a newline that ends the text. */
  ghost predicate Accepts(ts: seq<Token>, text: string)
  {
    || MatchesAll(ts, text)
    || (|text| > 0 && text[|text| - 1] == '\n' && MatchesAll(ts, text[..|text| - 1]))
  }

  /** The number of wildcards. */
  function Wilds(ts: seq<Token>): nat
  {
    if ts == [] then 0 else (if ts[0] == Wild then 1 else 0) + Wilds(ts[1..])
  }

  /** The text obtained by putting `args` in the wildcards, in order. */
  function Render(ts: seq<Token>, args: seq<string>): string
    requires |args| == Wilds(ts)
  {
    if ts == [] then []
    else match ts[0]
      case Lit(l) => l + Render(ts[1..], args)
      case Wild => args[0] + Render(ts[1..], args[1..])
  }

  /** Every argument fits a wildcard. */
  predicate Fits(args: seq<string>)
  {
    forall i :: 0 <= i < |args| ==> NoNewline(args[i])
  }

  /** Filling the wildcards with newline-free text gives a matching text. */
  lemma {:induction false} RenderMatches(ts: seq<Token>, args: seq<string>)
    requires |args| == Wilds(ts) && Fits(args)
    ensures MatchesAll(ts, Render(ts, args))
    decreases |ts|
  {
    if ts != [] {
      var t := Render(ts, args);
      match ts[0]
      case Lit(l) =>
        RenderMatches(ts[1..], args);
        assert t[..|l|] == l && t[|l|..] == Render(ts[1..], args);
      case Wild =>
        assert Fits(args[1..]) by {
          forall i | 0 <= i < |args[1..]| ensures NoNewline(args[1..][i]) {
            assert args[1..][i] == args[i + 1];
          }
        }
        RenderMatches(ts[1..], args[1..]);
        var k := |args[0]|;
        assert t[..k] == args[0] && t[k..] == Render(ts[1..], args[1..]);
    }
  }

  /** Conversely, every matching text is such a filling. */
  lemma {:induction false} MatchRender(ts: seq<Token>, t: string) returns (args: seq<string>)
    requires MatchesAll(ts, t)
    ensures |args| == Wilds(ts) && Fits(args) && Render(ts, args) == t
    decreases |ts|
  {
    if ts == [] {
      args := [];
    } else {
      match ts[0]
      case Lit(l) =>
        args := MatchRender(ts[1..], t[|l|..]);
        assert t == l + t[|l|..];
      case Wild =>
        var k :| 0 <= k <= |t| && NoNewline(t[..k]) && MatchesAll(ts[1..], t[k..]);
        var rest := MatchRender(ts[1..], t[k..]);
        args := [t[..k]] + rest;
        assert args[1..] == rest;
        assert t == t[..k] + t[k..];
    }
  }

  // ---------------------------------------------------------------------
  // What the compiler produces

  /** Text free of braces. */
  predicate Plain(s: string)
  {
    forall k :: 0 <= k < |s| ==> s[k] != '{' && s[k] != '}'
  }

  /** No match starts in text free of braces. */
  lemma {:induction false} NoHitInPlain(s: string, from: nat)
    requires from <= |s| && Plain(s)
    ensures NextHit(s, from) == None
    decreases |s| - from
  {
    if from < |s| {
      assert PlaceholderAt(s, from).None? && PlaceholderAt(s, from + 1).None?;
      NoHitInPlain(s, from + 1);
    }
  }

  /** A template without braces compiles to itself as one literal. */
  lemma PlainTemplate(s: string)
    requires Plain(s)
    ensures Compile(s) == if s == [] then [] else [Lit(s)]
  {
    NoHitInPlain(s, 0);
    assert s[0..] == s;
  }

  /** One literal token matches exactly its own text. */
  lemma LiteralMatches(s: string, t: string)
    ensures MatchesAll(if s == [] then [] else [Lit(s)], t) <==> t == s
  {
    if s != [] {
      var ts := [Lit(s)];
      assert ts[1..] == [];
      if MatchesAll(ts, t) {
        assert t == t[..|s|] + t[|s|..];
      }
      if t == s {
        assert t[|s|..] == [];
      }
    }
  }

  /** So a template without braces accepts only itself, optionally followed by one newline. */
  lemma PlainAccepts(s: string, text: string)
    requires Plain(s)
    ensures Accepts(Compile(s), text) <==> text == s || text == s + "\n"
  {
    PlainTemplate(s);
    LiteralMatches(s, text);
    if |text| > 0 {
      LiteralMatches(s, text[..|text| - 1]);
      assert text[..|text| - 1] == s && text[|text| - 1] == '\n' ==> text == s + "\n";
    }
    if text == s + "\n" {
      assert text[..|text| - 1] == s;
    }
  }

  // ---------------------------------------------------------------------
  // Templates built from parts

  /** What follows a run of plain text in a template. */
  datatype Chunk = Index(digits: string) | Open | Close

  /** Plain text followed by a placeholder or an escaped brace. */
  datatype Field = Field(lead: string, chunk: Chunk)

  /** A `str.format` template: fields, then plain text. */
  datatype Template = Template(fields: seq<Field>, tail: string)

  function ChunkText(c: Chunk): string
  {
    match c
    case Index(d) => "{" + d + "}"
    case Open => "{{"
    case Close => "}}"
  }

  function KindOf(c: Chunk): Kind
  {
    match c
    case Index(_) => Placeholder
    case Open => OpenBrace
    case Close => CloseBrace
  }

  predicate WellFormedChunk(c: Chunk)
  {
    c.Index? ==> |c.digits| > 0 && forall k :: 0 <= k < |c.digits| ==> IsDigit(c.digits[k])
  }

  predicate WellFormedFields(fields: seq<Field>)
  {
    fields != [] ==> Plain(fields[0].lead) && WellFormedChunk(fields[0].chunk) && WellFormedFields(fields[1..])
  }

  predicate WellFormed(tp: Template)
  {
    Plain(tp.tail) && WellFormedFields(tp.fields)
  }

  /** The template as text. */
  function Source(fields: seq<Field>, tail: string): string
  {
    if fields == [] then tail
    else fields[0].lead + ChunkText(fields[0].chunk) + Source(fields[1..], tail)
  }

  /** The tokens a template should compile to: each field's text, then its wildcard or brace. */
  function Expected(fields: seq<Field>, tail: string): seq<Token>
  {
    if fields == [] then (if tail == [] then [] else [Lit(tail)])
    else [Lit(fields[0].lead), TokenOf(KindOf(fields[0].chunk))] + Expected(fields[1..], tail)
  }

  /** Each placeholder but one at the very start of the template has plain text before it. */
  predicate Separated(fields: seq<Field>, atStart: bool)
  {
    forall k :: 0 <= k < |fields| && fields[k].chunk.Index? ==> fields[k].lead != [] || (k == 0 && atStart)
  }

  /** What the scanner sees at the first character of a chunk. */
  lemma ChunkStart(s: string, p: nat, c: Chunk)
    requires p + |ChunkText(c)| <= |s| && s[p..p + |ChunkText(c)|] == ChunkText(c) && WellFormedChunk(c)
    ensures PlaceholderAt(s, p) == if c.Index? then Some(p + |ChunkText(c)|) else None
    ensures s[p] == (if c.Close? then '}' else '{')
    ensures s[p + 1] == (if c.Open? then '{' else if c.Close? then '}' else c.digits[0])
  {
    assert s[p] == ChunkText(c)[0];
    assert s[p + 1] == ChunkText(c)[1];
    if c.Index? {
      var d := c.digits;
      forall m | p + 1 <= m < p + 1 + |d| ensures IsDigit(s[m]) {
        assert s[m] == ChunkText(c)[m - p] == d[m - p - 1];
      }
      assert s[p + 1 + |d|] == ChunkText(c)[|d| + 1] == '}';
      DigitsRun(s, p + 1, p + 1 + |d|);
    } else {
      assert DigitsEnd(s, p + 1) == p + 1;
    }
  }

  /**
   * The scanner as written finds the chunk after the plain text, provided
   * a placeholder has a character of its own before it or starts the
   * text: the last character of the plain text is taken into the match
   * and given back as literal text.
   */
  lemma {:induction false} WrittenFindsChunk(s: string, i: nat, n: nat, c: Chunk)
    requires FieldAt(s, i, n, c) && (c.Index? ==> n > 0 || i == 0)
    ensures NextHit(s, i) == Some(Hit(KindOf(c), i + n, i + n + |ChunkText(c)|))
    decreases n
  {
    if n == 0 {
      MatchAtChunk(s, i, c);
    } else if n == 1 && c.Index? {
      MatchBeforePlaceholder(s, i, c);
    } else {
      NoMatchBeforeChunk(s, i, n, c);
      assert s[i + 1..i + n] == s[i..i + n][1..];
      WrittenFindsChunk(s, i + 1, n - 1, c);
    }
  }

  /** At the chunk itself, the match is the chunk (a placeholder only at the start). */
  lemma MatchAtChunk(s: string, p: nat, c: Chunk)
    requires p + |ChunkText(c)| <= |s| && s[p..p + |ChunkText(c)|] == ChunkText(c) && WellFormedChunk(c)
    requires c.Index? ==> p == 0
    ensures MatchAt(s, p) == Some(Hit(KindOf(c), p, p + |ChunkText(c)|))
  {
    ChunkStart(s, p, c);
  }

  /** One plain character before a placeholder is taken into its match. */
  lemma MatchBeforePlaceholder(s: string, i: nat, c: Chunk)
    requires FieldAt(s, i, 1, c) && c.Index?
    ensures MatchAt(s, i) == Some(Hit(Placeholder, i + 1, i + 1 + |ChunkText(c)|))
  {
    ChunkStart(s, i + 1, c);
    assert s[i] == s[i..i + 1][0];
  }

  /** A plain character that is not taken into the next match matches nothing. */
  lemma NoMatchBeforeChunk(s: string, i: nat, n: nat, c: Chunk)
    requires FieldAt(s, i, n, c) && n > 0 && (n > 1 || !c.Index?)
    ensures MatchAt(s, i) == None
  {
    var p := i + n;
    ChunkStart(s, p, c);
    assert s[i] == s[i..p][0];
    assert PlaceholderAt(s, i) == None;
    if i + 1 < p {
      assert s[i + 1] == s[i..p][1];
      assert PlaceholderAt(s, i + 1) == None;
    }
  }

  /** The plain text at the end of a template holds no match. */
  lemma {:induction false} NoWrittenHitInPlain(s: string, from: nat)
    requires from <= |s| && Plain(s[from..])
    ensures NextHit(s, from) == None
    decreases |s| - from
  {
    if from < |s| {
      assert s[from] == s[from..][0];
      if from + 1 < |s| {
        assert s[from + 1] == s[from..][1];
      }
      assert s[from + 1..] == s[from..][1..];
      NoWrittenHitInPlain(s, from + 1);
    }
  }

  /** The loop, from index `i` of a template whose rest is built from parts. */
  lemma {:induction false} WrittenCompileFrom(s: string, i: nat, fields: seq<Field>, tail: string)
    requires i <= |s| && s[i..] == Source(fields, tail)
    requires WellFormedFields(fields) && Plain(tail) && Separated(fields, i == 0)
    ensures CompileFrom(s, i) == Expected(fields, tail)
    decreases |fields|
  {
    if fields == [] {
      NoWrittenHitInPlain(s, i);
    } else {
      var f := fields[0];
      var e := WrittenStep(s, i, f.lead, f.chunk, Source(fields[1..], tail));
      SeparatedRest(fields, i == 0);
      WrittenCompileFrom(s, e, fields[1..], tail);
    }
  }

  /** One field of the template: its plain text, then its chunk's token. */
  lemma WrittenStep(s: string, i: nat, lead: string, c: Chunk, rest: string) returns (e: nat)
    requires i <= |s| && s[i..] == lead + ChunkText(c) + rest
    requires Plain(lead) && WellFormedChunk(c) && (c.Index? ==> lead != [] || i == 0)
    ensures e <= |s| && s[e..] == rest
    ensures CompileFrom(s, i) == [Lit(lead), TokenOf(KindOf(c))] + CompileFrom(s, e)
  {
    e := i + |lead| + |ChunkText(c)|;
    WrittenField(s, i, lead, c, rest);
    WrittenFindsChunk(s, i, |lead|, c);
    CompileFromLead(s, i, lead, KindOf(c), e);
  }

  /** A plain lead, a chunk and the rest, read off the text. */
  lemma WrittenField(s: string, i: nat, lead: string, c: Chunk, rest: string)
    requires i <= |s| && s[i..] == lead + ChunkText(c) + rest
    requires Plain(lead) && WellFormedChunk(c)
    ensures FieldAt(s, i, |lead|, c) && s[i..i + |lead|] == lead
    ensures s[i + |lead| + |ChunkText(c)|..] == rest
  {
    ThreeParts(s, i, lead, ChunkText(c), rest);
  }

  lemma CompileFromLead(s: string, i: nat, lead: string, k: Kind, e: nat)
    requires i + |lead| <= |s| && s[i..i + |lead|] == lead
    requires NextHit(s, i) == Some(Hit(k, i + |lead|, e))
    ensures CompileFrom(s, i) == [Lit(lead), TokenOf(k)] + CompileFrom(s, e)
  {
    CompileFromHit(s, i, Hit(k, i + |lead|, e));
  }

  lemma CompileFromHit(s: string, i: nat, h: Hit)
    requires i <= |s| && NextHit(s, i) == Some(h)
    ensures CompileFrom(s, i) == [Lit(s[i..h.j]), TokenOf(h.kind)] + CompileFrom(s, h.end)
  { }

  /** The parts of a text that starts at `i`. */
  lemma ThreeParts(s: string, i: nat, a: string, b: string, c: string)
    requires i <= |s| && s[i..] == a + b + c
    ensures s[i..i + |a|] == a && s[i + |a|..i + |a| + |b|] == b && s[i + |a| + |b|..] == c
  {
    assert s[i..i + |a|] == s[i..][..|a|];
    assert s[i + |a|..i + |a| + |b|] == s[i..][|a|..|a| + |b|];
    assert s[i + |a| + |b|..] == s[i..][|a| + |b|..];
  }

  /** Past the first field, every placeholder needs its plain text. */
  lemma SeparatedRest(fields: seq<Field>, atStart: bool)
    requires fields != [] && Separated(fields, atStart)
    ensures Separated(fields[1..], false)
  {
    forall k | 0 <= k < |fields[1..]| && fields[1..][k].chunk.Index? ensures fields[1..][k].lead != [] {
      assert fields[1..][k] == fields[k + 1];
    }
  }

  /**
   * As written, a well-formed template compiles to its parts (every
   * `{n}` a wildcard, `{{` and `}}` literal braces) when each placeholder
   * has plain text before it or starts the template.
   */
  lemma WrittenCompile(tp: Template)
    requires WellFormed(tp) && Separated(tp.fields, true)
    ensures Compile(Source(tp.fields, tp.tail)) == Expected(tp.fields, tp.tail)
  {
    var s := Source(tp.fields, tp.tail);
    assert s[0..] == s;
    WrittenCompileFrom(s, 0, tp.fields, tp.tail);
  }

  /** The documented example: `string{0}like{1}this{{2}}` is `^string(.*?)like(.*?)this\{2\}$`. */
  lemma DocumentedExample()
    ensures Compile("string{0}like{1}this{{2}}")
         == [Lit("string"), Wild, Lit("like"), Wild, Lit("this"), Lit("{"), Lit("2"), Lit("}")]
  {
    DocumentedShape();
    DocumentedSource();
    DocumentedTokens();
    WrittenCompile(Documented());
  }

  /** `string{0}like{1}this{{2}}` in parts. */
  function Documented(): Template
  {
    Template([Field("string", Index("0"))] + ([Field("like", Index("1"))] + ([Field("this", Open)] + [Field("2", Close)])), "")
  }

  lemma DocumentedShape()
    ensures WellFormed(Documented()) && Separated(Documented().fields, true)
  {
    var f2 := [Field("this", Open)] + [Field("2", Close)];
    var f1 := [Field("like", Index("1"))] + f2;
    ShapeCons(Field("2", Close), [], false);
    ShapeCons(Field("this", Open), [Field("2", Close)], false);
    ShapeCons(Field("like", Index("1")), f2, false);
    ShapeCons(Field("string", Index("0")), f1, true);
  }

  lemma DocumentedSource()
    ensures Source(Documented().fields, "") == "string{0}like{1}this{{2}}"
  {
    var f2 := [Field("this", Open)] + [Field("2", Close)];
    var f1 := [Field("like", Index("1"))] + f2;
    LikeThisSource();
    SourceCons(Field("string", Index("0")), f1, "");
  }

  lemma LikeThisSource()
    ensures Source([Field("like", Index("1"))] + ([Field("this", Open)] + [Field("2", Close)]), "") == "like{1}this{{2}}"
  {
    var f2 := [Field("this", Open)] + [Field("2", Close)];
    SourceCons(Field("2", Close), [], "");
    assert Source([Field("2", Close)], "") == "2}}";
    SourceCons(Field("this", Open), [Field("2", Close)], "");
    assert Source(f2, "") == "this{{2}}";
    SourceCons(Field("like", Index("1")), f2, "");
  }

  lemma DocumentedTokens()
    ensures Expected(Documented().fields, "")
         == [Lit("string"), Wild, Lit("like"), Wild, Lit("this"), Lit("{"), Lit("2"), Lit("}")]
  {
    var f2 := [Field("this", Open)] + [Field("2", Close)];
    var f1 := [Field("like", Index("1"))] + f2;
    ExpectedCons(Field("2", Close), [], "");
    ExpectedCons(Field("this", Open), [Field("2", Close)], "");
    ExpectedCons(Field("like", Index("1")), f2, "");
    ExpectedCons(Field("string", Index("0")), f1, "");
  }

  /** The text of a template's first field, then the rest. */
  lemma SourceCons(f: Field, rest: seq<Field>, tail: string)
    ensures Source([f] + rest, tail) == f.lead + ChunkText(f.chunk) + Source(rest, tail)
  {
    assert ([f] + rest)[1..] == rest;
  }

  /** The tokens of a template's first field, then the rest. */
  lemma ExpectedCons(f: Field, rest: seq<Field>, tail: string)
    ensures Expected([f] + rest, tail) == [Lit(f.lead), TokenOf(KindOf(f.chunk))] + Expected(rest, tail)
  {
    assert ([f] + rest)[1..] == rest;
  }

  /** A template is well formed and separated when its first field and the rest are. */
  lemma ShapeCons(f: Field, rest: seq<Field>, atStart: bool)
    requires Plain(f.lead) && WellFormedChunk(f.chunk) && WellFormedFields(rest)
    requires (f.chunk.Index? ==> f.lead != [] || atStart) && Separated(rest, false)
    ensures WellFormedFields([f] + rest) && Separated([f] + rest, atStart)
  {
    var fs := [f] + rest;
    assert fs[1..] == rest;
    forall k | 0 <= k < |fs| && fs[k].chunk.Index? ensures fs[k].lead != [] || (k == 0 && atStart) {
      if k > 0 {
        assert fs[k] == rest[k - 1];
      }
    }
  }

  /** `pre{0}in{1}post` compiles to its parts and accepts `preandinandpost`. */
  lemma PreInPost()
    ensures Compile("pre{0}in{1}post") == [Lit("pre"), Wild, Lit("in"), Wild, Lit("post")]
    ensures Accepts(Compile("pre{0}in{1}post"), "preandinandpost")
  {
    var tp := PreInPostParts();
    WrittenCompile(tp);
    AndInAnd();
  }

  /** Both wildcards of `pre(.*?)in(.*?)post` can take `and`. */
  lemma AndInAnd()
    ensures MatchesAll([Lit("pre"), Wild, Lit("in"), Wild, Lit("post")], "preandinandpost")
  {
    var ts := [Lit("pre"), Wild, Lit("in"), Wild, Lit("post")];
    var args := ["and", "and"];
    assert ts[1..] == [Wild, Lit("in"), Wild, Lit("post")];
    AndInAndPost();
    assert Wilds(ts) == 2;
    assert Render(ts, args) == "pre" + "andinandpost" == "preandinandpost";
    RenderMatches(ts, args);
  }

  /** `(.*?)in(.*?)post` filled with `and` twice. */
  lemma AndInAndPost()
    ensures Wilds([Wild, Lit("in"), Wild, Lit("post")]) == 2
    ensures Render([Wild, Lit("in"), Wild, Lit("post")], ["and", "and"]) == "andinandpost"
  {
    var ts := [Wild, Lit("in"), Wild, Lit("post")];
    assert ts[1..] == [Lit("in"), Wild, Lit("post")];
    assert ts[2..] == [Wild, Lit("post")] == ts[1..][1..];
    assert ts[3..] == [Lit("post")] == ts[2..][1..];
    assert ts[3..][1..] == [];
    var one: seq<string> := ["and"];
    assert one[1..] == [] && ["and", "and"][1..] == one;
    assert Wilds(ts[3..]) == 0;
    assert Wilds(ts[2..]) == 1;
    assert Render(ts[3..], []) == "post";
    assert Wilds(ts[1..]) == 1;
    assert Render(ts[2..], ["and"]) == "andpost";
    assert Render(ts[1..], ["and"]) == "inandpost";
  }

  /** The parts of `pre{0}in{1}post`. */
  lemma PreInPostParts() returns (tp: Template)
    ensures WellFormed(tp) && Separated(tp.fields, true)
    ensures Source(tp.fields, tp.tail) == "pre{0}in{1}post"
    ensures Expected(tp.fields, tp.tail) == [Lit("pre"), Wild, Lit("in"), Wild, Lit("post")]
  {
    var fields := [Field("pre", Index("0")), Field("in", Index("1"))];
    assert fields[1..][1..] == [];
    assert Source(fields[1..], "post") == "in{1}post";
    assert WellFormedFields(fields[1..]);
    tp := Template(fields, "post");
  }

  /**
   * The scanning expression without the `(^|[^{])` guard: a placeholder
   * matches wherever it starts.  Leftmost matching already keeps `{{0}}`
   * from being read as a placeholder, since `{{` is found first.
   */
  function MatchAtIntended(s: string, p: nat): (r: Option<Hit>)
    requires p <= |s|
    ensures r.Some? ==> r.value.j == p < r.value.end <= |s|
  {
    if PlaceholderAt(s, p).Some? then Some(Hit(Placeholder, p, PlaceholderAt(s, p).value))
    else if p + 2 <= |s| && s[p] == '{' && s[p + 1] == '{' then Some(Hit(OpenBrace, p, p + 2))
    else if p + 2 <= |s| && s[p] == '}' && s[p + 1] == '}' then Some(Hit(CloseBrace, p, p + 2))
    else None
  }

  function NextHitIntended(s: string, from: nat): (r: Option<Hit>)
    requires from <= |s|
    ensures r.Some? ==> from <= r.value.j < r.value.end <= |s|
    decreases |s| - from
  {
    if from == |s| then None
    else if MatchAtIntended(s, from).Some? then MatchAtIntended(s, from)
    else NextHitIntended(s, from + 1)
  }

  /**
   * The compiler with the intended scanning expression; as no alternative
   * looks behind the match any more, it can restart on the rest of the text.
   */
  function CompileIntended(s: string): seq<Token>
    decreases |s|
  {
    match NextHitIntended(s, 0)
    case None => if s == [] then [] else [Lit(s)]
    case Some(h) => [Lit(s[..h.j]), TokenOf(h.kind)] + CompileIntended(s[h.end..])
  }

  /** In `s`, the plain text from `i` to `i + n` is followed by chunk `c`. */
  ghost predicate FieldAt(s: string, i: nat, n: nat, c: Chunk)
  {
    && i + n + |ChunkText(c)| <= |s|
    && Plain(s[i..i + n])
    && s[i + n..i + n + |ChunkText(c)|] == ChunkText(c)
    && WellFormedChunk(c)
  }

  /** The intended scanner finds the chunk right after the plain text. */
  lemma {:induction false} IntendedFindsChunk(s: string, i: nat, n: nat, c: Chunk)
    requires FieldAt(s, i, n, c)
    ensures NextHitIntended(s, i) == Some(Hit(KindOf(c), i + n, i + n + |ChunkText(c)|))
    decreases n
  {
    if n == 0 {
      ChunkStart(s, i, c);
    } else {
      assert s[i] == s[i..i + n][0];
      assert s[i + 1..i + n] == s[i..i + n][1..];
      IntendedFindsChunk(s, i + 1, n - 1, c);
    }
  }

  /** A run of digits ended by a non-digit. */
  lemma {:induction false} DigitsRun(s: string, k: nat, e: nat)
    requires k <= e < |s| && !IsDigit(s[e])
    requires forall m :: k <= m < e ==> IsDigit(s[m])
    ensures DigitsEnd(s, k) == e
    decreases e - k
  {
    if k < e {
      DigitsRun(s, k + 1, e);
    }
  }

  /** A field: its plain text, then its chunk's token, then the rest. */
  lemma IntendedStep(lead: string, c: Chunk, rest: string)
    requires Plain(lead) && WellFormedChunk(c)
    ensures CompileIntended(lead + ChunkText(c) + rest) == [Lit(lead), TokenOf(KindOf(c))] + CompileIntended(rest)
  {
    var s := lead + ChunkText(c) + rest;
    var w := |ChunkText(c)|;
    assert s[0..|lead|] == lead && s[..|lead|] == lead;
    assert s[|lead|..|lead| + w] == ChunkText(c);
    assert s[|lead| + w..] == rest;
    IntendedFindsChunk(s, 0, |lead|, c);
  }

  /** Plain text at the end is one literal, or nothing. */
  lemma IntendedEnd(tail: string)
    requires Plain(tail)
    ensures CompileIntended(tail) == if tail == [] then [] else [Lit(tail)]
  {
    assert tail[0..] == tail;
    NoHitInPlainFrom(tail, 0);
  }

  /** No intended match starts in plain text. */
  lemma {:induction false} NoHitInPlainFrom(s: string, from: nat)
    requires from <= |s| && Plain(s[from..])
    ensures NextHitIntended(s, from) == None
    decreases |s| - from
  {
    if from < |s| {
      assert s[from] == s[from..][0];
      if from + 1 < |s| {
        assert s[from + 1] == s[from..][1];
      }
      assert s[from + 1..] == s[from..][1..];
      NoHitInPlainFrom(s, from + 1);
    }
  }

  /** Every well-formed template compiles, with the intended expression, to its parts. */
  lemma {:induction false} IntendedCompile(tp: Template)
    requires WellFormed(tp)
    ensures CompileIntended(Source(tp.fields, tp.tail)) == Expected(tp.fields, tp.tail)
    decreases |tp.fields|
  {
    if tp.fields == [] {
      IntendedEnd(tp.tail);
    } else {
      var f := tp.fields[0];
      IntendedStep(f.lead, f.chunk, Source(tp.fields[1..], tp.tail));
      IntendedCompile(Template(tp.fields[1..], tp.tail));
    }
  }

  /**
   * As written, a placeholder right after another match is not one: in
   * `{0}{1}` the `{1}` stays literal text, so the formatted text `xy` is
   * not accepted.
   */
  lemma AdjacentPlaceholders()
    ensures Compile("{0}{1}") == [Lit(""), Wild, Lit("{1}")]
    ensures !Accepts(Compile("{0}{1}"), "xy")
    ensures CompileIntended("{0}{1}") == [Lit(""), Wild, Lit(""), Wild]
  {
    AdjacentAsWritten();
    NoMatchWithoutBrace([Lit(""), Wild, Lit("{1}")], "xy");
    AdjacentIntended();
  }

  /** The `}` before the second placeholder of `{0}{1}` belongs to the first match, so `(^|[^{])` has nothing to match there and `{1}` stays literal. */
  lemma AdjacentAsWritten()
    ensures Compile("{0}{1}") == [Lit(""), Wild, Lit("{1}")]
  {
    var s := "{0}{1}";
    assert DigitsEnd(s, 1) == 2;
    assert DigitsEnd(s, 4) == 5;
    assert PlaceholderAt(s, 0) == Some(3);
    assert MatchAt(s, 3).None? && MatchAt(s, 4).None? && MatchAt(s, 5).None?;
    assert NextHit(s, 3) == None;
    assert NextHit(s, 0) == Some(Hit(Placeholder, 0, 3));
    assert CompileFrom(s, 3) == [Lit(s[3..])];
    assert s[0..0] == "" && s[3..] == "{1}";
  }

  /** Without the guard both placeholders of `{0}{1}` become wildcards. */
  lemma AdjacentIntended()
    ensures CompileIntended("{0}{1}") == [Lit(""), Wild, Lit(""), Wild]
  {
    var fields := [Field("", Index("0")), Field("", Index("1"))];
    assert Source(fields[1..], "") == "{1}";
    assert Source(fields, "") == "{0}{1}";
    IntendedCompile(Template(fields, ""));
  }

  /** The literal `{1}` matches no text free of braces. */
  lemma NoBraceLiteral(u: string)
    requires Plain(u)
    ensures !MatchesAll([Lit("{1}")], u)
  {
    if |u| >= 3 {
      assert u[..3][0] != '{';
    }
  }

  /** `[Lit(""), Wild, Lit("{1}")]` needs a `{` in the text. */
  lemma NoMatchWithoutBrace(ts: seq<Token>, t: string)
    requires ts == [Lit(""), Wild, Lit("{1}")] && Plain(t)
    ensures !MatchesAll(ts, t)
  {
    var rest := ts[1..];
    assert rest == [Wild, Lit("{1}")] && rest[1..] == [Lit("{1}")] && t[0..] == t;
    forall k | 0 <= k <= |t|
      ensures !MatchesAll(rest[1..], t[k..])
    {
      NoBraceLiteral(t[k..]);
    }
    assert !MatchesAll(rest, t);
  }
}
