/**
 * The handful of Python string operations the library leans on:
 * `str.strip`, `str.split(sep)`, `str.split()`, `sep.join`, decimal
 * formatting with zero padding and `int()` on digit strings.
 */
module Strings {
  import opened Wrappers

  /** Python's `str.isspace` / regex `\s` for one character. */
  predicate IsSpace(c: char)
  {
    var n := c as int;
    n == 32 || 9 <= n <= 13 || 28 <= n <= 31 || n == 0x85 || n == 0xA0
    || n == 0x1680 || 0x2000 <= n <= 0x200A || n == 0x2028 || n == 0x2029
    || n == 0x202F || n == 0x205F || n == 0x3000
  }

  predicate IsDigit(c: char) { '0' <= c <= '9' }

  predicate IsAsciiLetter(c: char) { 'a' <= c <= 'z' || 'A' <= c <= 'Z' }

  predicate AllDigits(s: string) { forall i :: 0 <= i < |s| ==> IsDigit(s[i]) }

  predicate NoSpace(s: string) { forall i :: 0 <= i < |s| ==> !IsSpace(s[i]) }

  /** Digits are not whitespace. */
  lemma DigitsNoSpace(s: string)
    requires AllDigits(s)
    ensures NoSpace(s)
  {
    forall i | 0 <= i < |s| ensures !IsSpace(s[i]) {
      assert IsDigit(s[i]);
    }
  }

  /** ASCII lower-casing, as regex IGNORECASE applies it to ASCII letters. */
  function Lower(c: char): (r: char)
    ensures IsAsciiLetter(c) ==> 'a' <= r <= 'z'
    ensures !('A' <= c <= 'Z') ==> r == c
  {
    if 'A' <= c <= 'Z' then (c as int + 32) as char else c
  }

  /** Equality up to ASCII case. */
  predicate EqualIgnoringCase(a: string, b: string)
  {
    |a| == |b| && forall i :: 0 <= i < |a| ==> Lower(a[i]) == Lower(b[i])
  }

  // ---------------------------------------------------------------- strip

  /** `s.lstrip()`: drops the leading whitespace and nothing else. */
  function LStrip(s: string): (r: string)
    ensures |r| <= |s|
    ensures r == [] || !IsSpace(r[0])
    ensures forall i :: 0 <= i < |s| - |r| ==> IsSpace(s[i])
  {
    if s != [] && IsSpace(s[0]) then LStrip(s[1..]) else s
  }

  /** What `lstrip` keeps is a suffix of the text. */
  lemma {:induction false} LStripSuffix(s: string)
    ensures LStrip(s) == s[|s| - |LStrip(s)|..]
    decreases |s|
  {
    if s != [] && IsSpace(s[0]) {
      LStripSuffix(s[1..]);
      assert s[1..][|s| - 1 - |LStrip(s)|..] == s[|s| - |LStrip(s)|..];
    }
  }

  /** `s.rstrip()`: drops the trailing whitespace and nothing else. */
  function RStrip(s: string): (r: string)
    ensures |r| <= |s| && r == s[..|r|]
    ensures r == [] || !IsSpace(r[|r| - 1])
    ensures forall i :: |r| <= i < |s| ==> IsSpace(s[i])
  {
    if s != [] && IsSpace(s[|s| - 1]) then RStrip(s[..|s| - 1]) else s
  }

  /** `s.strip()`. */
  function Strip(s: string): string
  {
    RStrip(LStrip(s))
  }

  lemma {:induction false} StripUnchanged(s: string)
    requires s == [] || (!IsSpace(s[0]) && !IsSpace(s[|s| - 1]))
    ensures Strip(s) == s
  {
  }

  // ----------------------------------------------------------- split/join

  /** `sep.join(pieces)`. */
  function Join(pieces: seq<string>, sep: string): string
  {
    if |pieces| == 0 then ""
    else if |pieces| == 1 then pieces[0]
    else pieces[0] + sep + Join(pieces[1..], sep)
  }

  /** `''.join(chunks)`. */
  function Concat(chunks: seq<string>): (r: string)
    ensures |chunks| == 1 ==> r == chunks[0]
  {
    if chunks == [] then "" else chunks[0] + Concat(chunks[1..])
  }

  lemma {:induction false} ConcatAppend(chunks: seq<string>, t: string)
    ensures Concat(chunks + [t]) == Concat(chunks) + t
  {
    if chunks != [] {
      assert (chunks + [t])[1..] == chunks[1..] + [t];
      ConcatAppend(chunks[1..], t);
    }
  }

  /** `s.split(sep)` for a one-character separator. */
  function Split(s: string, sep: char): (r: seq<string>)
    ensures |r| >= 1
    ensures forall i :: 0 <= i < |r| ==> sep !in r[i]
    ensures Join(r, [sep]) == s
  {
    if s == [] then [""]
    else
      var rest := Split(s[1..], sep);
      if s[0] == sep then
        assert Join([""] + rest, [sep]) == [sep] + Join(rest, [sep]);
        [""] + rest
      else
        JoinConsFirst(s[0], rest, [sep]);
        [[s[0]] + rest[0]] + rest[1..]
  }

  lemma {:induction false} JoinConsFirst(c: char, pieces: seq<string>, sep: string)
    requires |pieces| >= 1
    ensures Join([[c] + pieces[0]] + pieces[1..], sep) == [c] + Join(pieces, sep)
  {
    var p := [[c] + pieces[0]] + pieces[1..];
    if |pieces| == 1 {
    } else {
      assert p[1..] == pieces[1..];
    }
  }

  lemma {:induction false} SplitAfterPiece(x: string, sep: char, rest: string)
    requires sep !in x
    ensures Split(x + [sep] + rest, sep) == [x] + Split(rest, sep)
  {
    if x == [] {
      assert ([sep] + rest)[1..] == rest;
    } else {
      assert (x + [sep] + rest)[1..] == x[1..] + [sep] + rest;
      SplitAfterPiece(x[1..], sep, rest);
      assert [x[0]] + x[1..] == x;
    }
  }

  lemma {:induction false} SplitWithoutSeparator(x: string, sep: char)
    requires sep !in x
    ensures Split(x, sep) == [x]
  {
    if x != [] {
      SplitWithoutSeparator(x[1..], sep);
      assert [x[0]] + x[1..] == x;
    }
  }

  /** Splitting a join gives back the pieces when no piece holds the separator. */
  lemma {:induction false} SplitJoin(pieces: seq<string>, sep: char)
    requires |pieces| >= 1
    requires forall i :: 0 <= i < |pieces| ==> sep !in pieces[i]
    ensures Split(Join(pieces, [sep]), sep) == pieces
  {
    if |pieces| == 1 {
      SplitWithoutSeparator(pieces[0], sep);
    } else {
      SplitJoin(pieces[1..], sep);
      SplitAfterPiece(pieces[0], sep, Join(pieces[1..], [sep]));
    }
  }

  // ------------------------------------------------------------ str.split()

  /** The longest prefix of `s` without whitespace. */
  function WordPrefix(s: string): (r: string)
    ensures |r| <= |s| && r == s[..|r|] && NoSpace(r)
    ensures |r| == |s| || IsSpace(s[|r|])
    ensures s != [] && !IsSpace(s[0]) ==> |r| >= 1
  {
    if s == [] || IsSpace(s[0]) then "" else [s[0]] + WordPrefix(s[1..])
  }

  /** The words of a text that starts with a word or is empty. */
  function WordsOf(t: string): seq<string>
    requires t == [] || !IsSpace(t[0])
    decreases |t|
  {
    if t == [] then []
    else
      var w := WordPrefix(t);
      [w] + WordsOf(LStrip(t[|w|..]))
  }

  /** `s.split()`: the maximal runs of non-whitespace characters, in order. */
  function Words(s: string): seq<string>
  {
    WordsOf(LStrip(s))
  }

  predicate PlainWords(ws: seq<string>)
  {
    forall i :: 0 <= i < |ws| ==> ws[i] != [] && NoSpace(ws[i])
  }

  lemma WordsConsShape(w: string, ws: seq<string>)
    requires w != [] && NoSpace(w) && PlainWords(ws)
    ensures PlainWords([w] + ws)
  {
    assert forall i :: 1 <= i < |ws| + 1 ==> ([w] + ws)[i] == ws[i - 1];
  }

  lemma {:induction false} WordsOfShape(t: string)
    requires t == [] || !IsSpace(t[0])
    ensures PlainWords(WordsOf(t))
    decreases |t|
  {
    if t != [] {
      var w := WordPrefix(t);
      var rest := LStrip(t[|w|..]);
      WordsOfShape(rest);
      WordsConsShape(w, WordsOf(rest));
    }
  }

  /** Every word is non-empty and holds no whitespace. */
  lemma WordsShape(s: string)
    ensures PlainWords(Words(s))
  {
    WordsOfShape(LStrip(s));
  }

  lemma {:induction false} WordPrefixAll(w: string, rest: string)
    requires NoSpace(w)
    requires rest == [] || IsSpace(rest[0])
    ensures WordPrefix(w + rest) == w
  {
    if w != [] {
      assert (w + rest)[1..] == w[1..] + rest;
      WordPrefixAll(w[1..], rest);
    }
  }

  /** One leading whitespace character is dropped with the rest of the leading whitespace. */
  lemma LStripCons(c: char, rest: string)
    requires IsSpace(c)
    ensures LStrip([c] + rest) == LStrip(rest)
  {
    assert ([c] + rest)[1..] == rest;
  }

  /** Leading whitespace does not change the words. */
  lemma WordsLeadingWhitespace(c: char, rest: string)
    requires IsSpace(c)
    ensures Words([c] + rest) == Words(rest)
  {
    LStripCons(c, rest);
  }

  /** The same for a leading space. */
  lemma WordsLeadingSpace(rest: string)
    ensures Words(" " + rest) == Words(rest)
  {
    LStripCons(' ', rest);
  }

  /** A word followed by whitespace or the end of the text is the first word. */
  lemma WordsCons(a: string, rest: string)
    requires a != [] && NoSpace(a)
    requires rest == [] || IsSpace(rest[0])
    ensures Words(a + rest) == [a] + Words(rest)
  {
    var s := a + rest;
    assert s[0] == a[0];
    assert LStrip(s) == s;
    WordPrefixAll(a, rest);
    assert s[|a|..] == rest;
  }

  /** A word on its own is the one word of its text. */
  lemma OneWord(w: string)
    requires w != [] && NoSpace(w)
    ensures Words(w) == [w]
  {
    assert LStrip(w) == w;
    assert WordPrefix(w) == w by {
      WordPrefixAll(w, "");
      assert w + "" == w;
    }
    assert LStrip(w[|w|..]) == [];
    assert WordsOf(w) == [w] + WordsOf([]);
  }

  /** A word and a space in front of some text add that word in front of its words. */
  lemma WordSpaceCons(w: string, tail: string)
    requires w != [] && NoSpace(w)
    ensures Words(w + " " + tail) == [w] + Words(tail)
  {
    assert w + " " + tail == w + (" " + tail);
    WordsCons(w, " " + tail);
    WordsLeadingSpace(tail);
  }

  /** `' '.join(words).split() == words` for non-empty words without whitespace. */
  lemma {:induction false} WordsJoin(words: seq<string>)
    requires forall i :: 0 <= i < |words| ==> words[i] != [] && NoSpace(words[i])
    ensures Words(Join(words, " ")) == words
  {
    if |words| == 1 {
      OneWord(words[0]);
    } else if |words| > 1 {
      var rest := words[1..];
      WordsJoin(rest);
      WordSpaceCons(words[0], Join(rest, " "));
      assert words == [words[0]] + rest;
    }
  }

  // ------------------------------------------------------------- decimals

  function DigitChar(d: nat): (c: char)
    requires d < 10
    ensures IsDigit(c)
  {
    (48 + d) as char
  }

  function DigitValue(c: char): (d: nat)
    requires IsDigit(c)
    ensures d < 10 && DigitChar(d) == c
  {
    c as int - 48
  }

  /** `str(n)` for a natural number: decimal digits, no leading zeros. */
  function NatToString(n: nat): (s: string)
    ensures s != [] && AllDigits(s)
    ensures |s| > 1 ==> s[0] != '0'
  {
    if n < 10 then [DigitChar(n)] else NatToString(n / 10) + [DigitChar(n % 10)]
  }

  /** `int(s)` for a string of ASCII digits (leading zeros allowed). */
  function ParseDigits(s: string): nat
    requires AllDigits(s)
  {
    if s == [] then 0 else ParseDigits(s[..|s| - 1]) * 10 + DigitValue(s[|s| - 1])
  }

  lemma {:induction false} ParseNatToString(n: nat)
    ensures ParseDigits(NatToString(n)) == n
  {
    if n >= 10 {
      var s := NatToString(n);
      assert s[..|s| - 1] == NatToString(n / 10);
      ParseNatToString(n / 10);
    }
  }

  /** `'0' * k`. */
  function Zeros(k: nat): (s: string)
    ensures |s| == k && AllDigits(s)
  {
    if k == 0 then "" else "0" + Zeros(k - 1)
  }

  /** Zero padding to at least `width` characters, as `{:0Nd}` writes it. */
  function ZeroPad(s: string, width: nat): (r: string)
    ensures |r| == if |s| < width then width else |s|
  {
    if |s| < width then Zeros(width - |s|) + s else s
  }

  lemma {:induction false} ParseLeadingZeros(k: nat, s: string)
    requires AllDigits(s)
    ensures AllDigits(Zeros(k) + s) && ParseDigits(Zeros(k) + s) == ParseDigits(s)
  {
    if s == [] {
      assert Zeros(k) + s == Zeros(k);
      ParseZeros(k);
    } else {
      var t := Zeros(k) + s;
      assert t[..|t| - 1] == Zeros(k) + s[..|s| - 1];
      ParseLeadingZeros(k, s[..|s| - 1]);
    }
  }

  lemma {:induction false} ParseZeros(k: nat)
    ensures ParseDigits(Zeros(k)) == 0
  {
    if k > 0 {
      var z := Zeros(k);
      assert z[..k - 1] == Zeros(k - 1) by {
        ZerosAllZero(k);
        ZerosAllZero(k - 1);
      }
      ParseZeros(k - 1);
      ZerosAllZero(k);
    }
  }

  lemma {:induction false} ZerosAllZero(k: nat)
    ensures forall i :: 0 <= i < k ==> Zeros(k)[i] == '0'
  {
    if k > 0 { ZerosAllZero(k - 1); }
  }

  /** `'{:0Nd}'.format(n)`, read back with `int`, gives `n`. */
  lemma PaddedRoundTrip(n: nat, width: nat)
    ensures AllDigits(ZeroPad(NatToString(n), width))
    ensures ParseDigits(ZeroPad(NatToString(n), width)) == n
  {
    var s := NatToString(n);
    ParseNatToString(n);
    if |s| < width { ParseLeadingZeros(width - |s|, s); }
  }

  /** `str(n)` has at most `k` digits when `n < 10^k`, so zero padding to `k` gives exactly `k` characters. */
  lemma {:induction false} NatToStringWidth(n: nat, k: nat)
    requires k >= 1 && n < Pow10(k)
    ensures |NatToString(n)| <= k
    ensures |ZeroPad(NatToString(n), k)| == k
  {
    if n >= 10 {
      NatToStringWidth(n / 10, k - 1);
    }
  }

  /** `s.rstrip('0')`. */
  function RStripZeros(s: string): (r: string)
    ensures |r| <= |s| && r == s[..|r|]
    ensures r == [] || r[|r| - 1] != '0'
    ensures forall i :: |r| <= i < |s| ==> s[i] == '0'
  {
    if s != [] && s[|s| - 1] == '0' then RStripZeros(s[..|s| - 1]) else s
  }

  /** Stripping trailing zeros and padding them back on the right restores the text. */
  lemma {:induction false} RStripZerosPad(s: string)
    ensures RStripZeros(s) + Zeros(|s| - |RStripZeros(s)|) == s
  {
    var r := RStripZeros(s);
    var z := Zeros(|s| - |r|);
    ZerosAllZero(|s| - |r|);
    assert forall i :: 0 <= i < |s| ==> (r + z)[i] == s[i] by {
      forall i | 0 <= i < |s| ensures (r + z)[i] == s[i] {
        if i >= |r| { assert (r + z)[i] == z[i - |r|]; }
      }
    }
  }

  /** `str(i)` for any integer. */
  function IntToString(i: int): (s: string)
    ensures s != [] && !IsSpace(s[0]) && IsDigit(s[|s| - 1])
  {
    if i < 0 then "-" + NatToString(-i) else NatToString(i)
  }

  /**
   * `int(text)` in base 10: surrounding whitespace, an optional sign, then
   * one or more ASCII digits; anything else is a `ValueError`, here `None`.
   */
  function ParseInt(text: string): Option<int>
  {
    var t := Strip(text);
    if t != [] && (t[0] == '+' || t[0] == '-') then
      if |t| > 1 && AllDigits(t[1..]) then
        var n: int := ParseDigits(t[1..]);
        Some(if t[0] == '-' then -n else n)
      else None
    else if t != [] && AllDigits(t) then Some(ParseDigits(t))
    else None
  }

  /** `int(str(i)) == i`. */
  lemma {:induction false} ParseIntToString(i: int)
    ensures ParseInt(IntToString(i)) == Some(i)
  {
    var s := IntToString(i);
    StripUnchanged(s);
    assert Strip(s) == s;
    if i < 0 {
      var d := NatToString(-i);
      assert s == "-" + d;
      assert s[0] == '-' && s[1..] == d;
      ParseNatToString(-i);
      assert ParseDigits(s[1..]) == -i;
    } else {
      var d := NatToString(i);
      assert s == d && s[0] != '+' && s[0] != '-';
      ParseNatToString(i);
    }
  }

  function Pow10(k: nat): nat
  {
    if k == 0 then 1 else 10 * Pow10(k - 1)
  }

  // ------------------------------------------------------ fixed-width templates

  /**
   * A fixed-width text template such as `%Y-%m-%dT%H:%M:%S`: a sequence of
   * zero-padded decimal fields of exactly `width` digits and literals.
   */
  datatype Template = End | Field(width: nat, next: Template) | Literal(c: char, next: Template)

  /** The number of decimal fields in a template. */
  function Arity(p: Template): nat
  {
    match p
    case End => 0
    case Field(_, next) => 1 + Arity(next)
    case Literal(_, next) => Arity(next)
  }

  /** `vals` has one value per field, each fitting its width. */
  predicate Fits(p: Template, vals: seq<nat>)
  {
    match p
    case End => vals == []
    case Literal(_, next) => Fits(next, vals)
    case Field(w, next) => vals != [] && w >= 1 && vals[0] < Pow10(w) && Fits(next, vals[1..])
  }

  /** Writes the values into the template, each zero-padded to its width. */
  function Fill(p: Template, vals: seq<nat>): string
  {
    match p
    case End => ""
    case Literal(c, next) => [c] + Fill(next, vals)
    case Field(w, next) =>
      if vals == [] then "" else ZeroPad(NatToString(vals[0]), w) + Fill(next, vals[1..])
  }

  /**
   * Matches the template against the start of `s`: the value of each field
   * and the text after the match, or `None` when `s` does not start with
   * text of the template's shape.
   */
  function Scan(p: Template, s: string): (r: Option<(seq<nat>, string)>)
    ensures r.Some? ==> |r.value.0| == Arity(p) && |r.value.1| <= |s|
  {
    match p
    case End => Some(([], s))
    case Literal(c, next) =>
      if s != [] && s[0] == c then
        Scan(next, s[1..])
      else None
    case Field(w, next) =>
      if |s| >= w && AllDigits(s[..w]) then
        var sub := Scan(next, s[w..]);
        if sub.None? then None
        else
          Some(([ParseDigits(s[..w])] + sub.value.0, sub.value.1))
      else None
  }

  /** Scanning a filled template gives back the values and whatever followed. */
  lemma {:induction false} ScanFill(p: Template, vals: seq<nat>, rest: string)
    requires Fits(p, vals)
    ensures Scan(p, Fill(p, vals) + rest) == Some((vals, rest))
  {
    match p
    case End =>
      assert Fill(p, vals) + rest == rest;
    case Literal(c, next) =>
      ScanFill(next, vals, rest);
      ScanLiteral(c, next, Fill(next, vals), rest);
    case Field(w, next) =>
      var z := ZeroPad(NatToString(vals[0]), w);
      NatToStringWidth(vals[0], w);
      PaddedRoundTrip(vals[0], w);
      ScanFill(next, vals[1..], rest);
      ScanField(z, next, Fill(next, vals[1..]), rest);
      assert [vals[0]] + vals[1..] == vals;
  }

  /** A literal matches its own character and leaves the rest to the template after it. */
  lemma ScanLiteral(c: char, next: Template, f: string, rest: string)
    ensures Scan(Literal(c, next), [c] + f + rest) == Scan(next, f + rest)
  {
    ConcatParts([c], f, rest);
  }

  /** A field matches its digits and leaves the rest to the template after it. */
  lemma ScanField(z: string, next: Template, f: string, rest: string)
    requires z != [] && AllDigits(z)
    ensures var sub := Scan(next, f + rest);
            Scan(Field(|z|, next), z + f + rest)
            == if sub.None? then None else Some(([ParseDigits(z)] + sub.value.0, sub.value.1))
  {
    ConcatParts(z, f, rest);
  }

  lemma ConcatParts(a: string, b: string, c: string)
    ensures (a + b + c)[..|a|] == a && (a + b + c)[|a|..] == b + c
  {
  }

  /** No literal of the template is whitespace. */
  predicate PlainLiterals(p: Template)
  {
    match p
    case End => true
    case Field(_, next) => PlainLiterals(next)
    case Literal(c, next) => !IsSpace(c) && PlainLiterals(next)
  }

  /** A template without whitespace literals writes a single word. */
  lemma {:induction false} FillNoSpace(p: Template, vals: seq<nat>)
    requires PlainLiterals(p)
    ensures NoSpace(Fill(p, vals))
  {
    match p
    case End =>
    case Literal(c, next) =>
      FillNoSpace(next, vals);
      assert Fill(p, vals) == [c] + Fill(next, vals);
    case Field(w, next) =>
      if vals != [] {
        FillNoSpace(next, vals[1..]);
        var z := ZeroPad(NatToString(vals[0]), w);
        PaddedRoundTrip(vals[0], w);
        assert Fill(p, vals) == z + Fill(next, vals[1..]);
      }
  }

  /** Whether `c` is one of the template's literal characters. */
  predicate HasLiteral(p: Template, c: char)
  {
    match p
    case End => false
    case Field(_, next) => HasLiteral(next, c)
    case Literal(d, next) => d == c || HasLiteral(next, c)
  }

  /** A filled template holds only digits and its own literals. */
  lemma {:induction false} FillAvoids(p: Template, vals: seq<nat>, c: char)
    requires !IsDigit(c) && !HasLiteral(p, c)
    ensures c !in Fill(p, vals)
  {
    match p
    case End =>
    case Literal(d, next) =>
      FillAvoids(next, vals, c);
      assert Fill(p, vals) == [d] + Fill(next, vals);
    case Field(w, next) =>
      if vals != [] {
        FillAvoids(next, vals[1..], c);
        var z := ZeroPad(NatToString(vals[0]), w);
        PaddedRoundTrip(vals[0], w);
        assert Fill(p, vals) == z + Fill(next, vals[1..]);
        assert forall i :: 0 <= i < |z| ==> z[i] != c;
      }
  }
}
