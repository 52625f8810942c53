/**
 * The scalar codecs of `libearth.codecs`: `Enum`, `Integer` and `Boolean`.
 * Each codec turns a Python value into the text stored in XML (`encode`)
 * and back (`decode`); a value of the wrong kind is an `EncodeError`, text
 * that cannot be read is a `DecodeError`.
 */
module Codecs {
  import opened Wrappers
  import opened Strings

  // ------------------------------------------------------------------ Enum

  predicate AllStrings(items: seq<Value>)
  {
    forall i :: 0 <= i < |items| ==> items[i].PyStr?
  }

  /**
   * `Enum(values)`: the set of accepted strings.  Anything that is not
   * iterable, or that yields a non-string, is a `TypeError`.  A string is
   * itself iterable and yields its one-character substrings.
   */
  method NewEnum(values: Value) returns (r: Result<set<string>>)
    ensures r.Err? ==> r.error == TypeError
    ensures r.Ok? <==> values.PyStr? || (values.PySeq? && AllStrings(values.items))
    ensures r.Ok? && values.PyStr? ==>
              forall x :: x in r.value <==> exists i :: 0 <= i < |values.s| && x == [values.s[i]]
    ensures r.Ok? && values.PySeq? ==> forall x :: x in r.value <==> PyStr(x) in values.items
  {
    match values {
      case PyStr(s) =>
        var acc: set<string> := {};
        var k := 0;
        while k < |s|
          invariant 0 <= k <= |s|
          invariant forall x :: x in acc <==> exists i :: 0 <= i < k && x == [s[i]]
        {
          acc := acc + {[s[k]]};
          k := k + 1;
        }
        return Ok(acc);
      case PySeq(items) =>
        var acc: set<string> := {};
        var k := 0;
        while k < |items|
          invariant 0 <= k <= |items|
          invariant AllStrings(items[..k])
          invariant forall x :: x in acc <==> PyStr(x) in items[..k]
        {
          if !items[k].PyStr? {
            return Err(TypeError);
          }
          assert items[..k + 1] == items[..k] + [items[k]];
          acc := acc + {items[k].s};
          k := k + 1;
        }
        assert items[..k] == items;
        return Ok(acc);
      case _ =>
        return Err(TypeError);
    }
  }

  /** `Enum.encode`: only a string that is one of the values passes, unchanged. */
  function EnumEncode(values: set<string>, value: Value): (r: Result<string>)
    ensures r.Ok? <==> value.PyStr? && value.s in values
    ensures r.Ok? ==> value == PyStr(r.value)
    ensures r.Err? ==> r.error == EncodeError
  {
    if value.PyStr? && value.s in values then Ok(value.s) else Err(EncodeError)
  }

  /** `Enum.decode`: only one of the values passes, unchanged. */
  function EnumDecode(values: set<string>, text: string): (r: Result<string>)
    ensures r.Ok? <==> text in values
    ensures r.Ok? ==> r.value == text
    ensures r.Err? ==> r.error == DecodeError
  {
    if text in values then Ok(text) else Err(DecodeError)
  }

  /** `Enum(['male', 'female'])` accepts exactly its two values, both ways. */
  method EnumGender() returns (r: Result<set<string>>)
    ensures r == Ok({"male", "female"})
    ensures EnumEncode(r.value, PyStr("male")) == Ok("male")
    ensures EnumEncode(r.value, PyStr("invalid")) == Err(EncodeError)
    ensures EnumDecode(r.value, "female") == Ok("female")
    ensures EnumDecode(r.value, "invalid") == Err(DecodeError)
  {
    r := NewEnum(PySeq([PyStr("male"), PyStr("female")]));
    assert r.Ok? && forall x :: x in r.value <==> x == "male" || x == "female";
    assert r.value == {"male", "female"};
  }

  // --------------------------------------------------------------- Integer

  /** The integer an integral value stands for; `bool` is an integral subclass of `int`. */
  function IntegralValue(value: Value): int
    requires value.PyInt? || value.PyBool?
  {
    if value.PyBool? then (if value.b then 1 else 0) else value.i
  }

  /** `Integer.encode`: `str(int(value))` for integral values only. */
  function IntegerEncode(value: Value): (r: Result<string>)
    ensures r.Ok? <==> value.PyInt? || value.PyBool?
    ensures r.Ok? ==> ParseInt(r.value) == Some(IntegralValue(value))
    ensures r.Err? ==> r.error == EncodeError
  {
    if value.PyInt? || value.PyBool? then
      ParseIntToString(IntegralValue(value));
      Ok(IntToString(IntegralValue(value)))
    else Err(EncodeError)
  }

  /** `Integer.decode`: `int(text)`, a failure being a `DecodeError`. */
  function IntegerDecode(text: string): (r: Result<int>)
    ensures r.Ok? <==> ParseInt(text).Some?
    ensures r.Ok? ==> Some(r.value) == ParseInt(text)
    ensures r.Err? ==> r.error == DecodeError
  {
    match ParseInt(text)
    case Some(n) => Ok(n)
    case None => Err(DecodeError)
  }

  /** Every integer survives encoding and decoding. */
  lemma IntegerRoundTrip(i: int)
    ensures IntegerEncode(PyInt(i)).Ok?
    ensures IntegerDecode(IntegerEncode(PyInt(i)).value) == Ok(i)
  {
  }

  /** `Integer().decode('aaa')` is a `DecodeError`. */
  lemma IntegerDecodeLetters()
    ensures IntegerDecode("aaa") == Err(DecodeError)
  {
    assert !IsSpace('a');
    assert LStrip("aaa") == "aaa";
    assert RStrip("aaa") == "aaa";
    assert Strip("aaa") == "aaa";
    assert !IsDigit("aaa"[0]) && !AllDigits("aaa");
    assert ParseInt("aaa") == None;
  }

  // --------------------------------------------------------------- Boolean

  /** The `true`/`false` argument of `Boolean`: one string, or a tuple of them. */
  datatype Texts = Single(text: string) | Several(texts: seq<string>)

  /** A configured `Boolean` codec. */
  datatype BooleanCodec = BooleanCodec(trueTexts: Texts, falseTexts: Texts, defaultValue: Value)

  /** The texts `decode` accepts for one truth value. */
  function Accepted(t: Texts): (r: seq<string>)
    ensures t.Single? ==> r == [t.text]
    ensures t.Several? ==> r == t.texts
  {
    match t
    case Single(s) => [s]
    case Several(ts) => ts
  }

  /** The text `encode` writes for one truth value: the string, or the tuple's first item. */
  function Preferred(t: Texts): (r: Result<string>)
    ensures r.Ok? <==> t.Single? || t.texts != []
    ensures r.Ok? ==> r.value in Accepted(t) && r.value == Accepted(t)[0]
    ensures r.Err? ==> r.error == IndexError
  {
    match t
    case Single(s) => Ok(s)
    case Several(ts) => if ts == [] then Err(IndexError) else Ok(ts[0])
  }

  /** A configured value as a Python object: a string, or a tuple of strings. */
  function TextsValue(t: Texts): Value
  {
    match t
    case Single(s) => PyStr(s)
    case Several(ts) => PySeq(seq(|ts|, i requires 0 <= i < |ts| => PyStr(ts[i])))
  }

  /**
   * The text written for `False` as `Boolean.encode` writes it: the choice
   * between the string and its first item tests `self.true` instead of
   * `self.false`.
   */
  function FalseTextAsWritten(c: BooleanCodec): Result<Value>
  {
    if c.trueTexts.Single? then Ok(TextsValue(c.falseTexts))
    else match c.falseTexts
      case Single(s) => if s == "" then Err(IndexError) else Ok(PyStr([s[0]]))
      case Several(ts) => if ts == [] then Err(IndexError) else Ok(PyStr(ts[0]))
  }

  /** `Boolean.encode` as written. */
  function BooleanEncodeAsWritten(c: BooleanCodec, value: Value): (r: Result<Value>)
    ensures c.trueTexts.Single? && c.falseTexts.Single? ==> r == BooleanEncode(c, value)
  {
    var v := if value.PyNone? then c.defaultValue else value;
    if !v.PyBool? && !v.PyNone? then Err(EncodeError)
    else match (Preferred(c.trueTexts), FalseTextAsWritten(c))
      case (Err(e), _) => Err(e)
      case (_, Err(e)) => Err(e)
      case (Ok(t), Ok(f)) =>
        if v == PyBool(true) then Ok(PyStr(t)) else if v == PyBool(false) then Ok(f) else Ok(PyNone)
  }

  /**
   * `Boolean.encode` as intended: `None` stands for the default value, a
   * truth value is written as its configured text (the first one of a
   * tuple), and `None` stays `None`.
   */
  function BooleanEncode(c: BooleanCodec, value: Value): (r: Result<Value>)
    ensures var v := if value.PyNone? then c.defaultValue else value;
            (!v.PyBool? && !v.PyNone? ==> r == Err(EncodeError))
            && (r.Ok? ==> (v.PyNone? <==> r.value.PyNone?))
            && (r.Ok? && v == PyBool(true) ==> r.value.PyStr? && r.value.s in Accepted(c.trueTexts))
            && (r.Ok? && v == PyBool(false) ==> r.value.PyStr? && r.value.s in Accepted(c.falseTexts))
            && (v.PyBool? || v.PyNone? ==> (r.Ok? <==> Preferred(c.trueTexts).Ok? && Preferred(c.falseTexts).Ok?))
  {
    var v := if value.PyNone? then c.defaultValue else value;
    if !v.PyBool? && !v.PyNone? then Err(EncodeError)
    else match (Preferred(c.trueTexts), Preferred(c.falseTexts))
      case (Err(e), _) => Err(e)
      case (_, Err(e)) => Err(e)
      case (Ok(t), Ok(f)) =>
        if v == PyBool(true) then Ok(PyStr(t)) else if v == PyBool(false) then Ok(PyStr(f)) else Ok(PyNone)
  }

  /**
   * `Boolean.decode`: a true text gives `True` (checked first), a false
   * text `False`, missing or empty text the default value; anything else
   * is a `DecodeError`.
   */
  function BooleanDecode(c: BooleanCodec, text: Option<string>): (r: Result<Value>)
    ensures text.Some? && text.value in Accepted(c.trueTexts) ==> r == Ok(PyBool(true))
    ensures text.Some? && text.value !in Accepted(c.trueTexts) && text.value in Accepted(c.falseTexts)
            ==> r == Ok(PyBool(false))
    ensures r.Err? <==> (text.Some? && text.value != ""
                         && text.value !in Accepted(c.trueTexts) && text.value !in Accepted(c.falseTexts))
    ensures r.Err? ==> r.error == DecodeError
    ensures (text.None? || text.value == "") && "" !in Accepted(c.trueTexts) && "" !in Accepted(c.falseTexts)
            ==> r == Ok(c.defaultValue)
  {
    if text.Some? && text.value in Accepted(c.trueTexts) then Ok(PyBool(true))
    else if text.Some? && text.value in Accepted(c.falseTexts) then Ok(PyBool(false))
    else if text.None? || text.value == "" then Ok(c.defaultValue)
    else Err(DecodeError)
  }

  /**
   * A truth value survives encoding and decoding whenever both preferred
   * texts exist and the preferred false text is not also a true text.
   */
  lemma BooleanRoundTrip(c: BooleanCodec, b: bool)
    requires Preferred(c.trueTexts).Ok? && Preferred(c.falseTexts).Ok?
    requires Preferred(c.falseTexts).value !in Accepted(c.trueTexts)
    ensures BooleanEncode(c, PyBool(b)).Ok? && BooleanEncode(c, PyBool(b)).value.PyStr?
    ensures BooleanDecode(c, Some(BooleanEncode(c, PyBool(b)).value.s)) == Ok(PyBool(b))
  {
  }

  /**
   * With a tuple of true texts and a single false text, `False` is written
   * as the first character of the false text, which does not decode.
   */
  lemma BooleanEncodeAsWrittenFirstCharacter()
    ensures var c := BooleanCodec(Several(["yes", "on"]), Single("no"), PyNone);
            BooleanEncodeAsWritten(c, PyBool(false)) == Ok(PyStr("n"))
            && BooleanDecode(c, Some("n")) == Err(DecodeError)
            && BooleanEncode(c, PyBool(false)) == Ok(PyStr("no"))
  {
    var c := BooleanCodec(Several(["yes", "on"]), Single("no"), PyNone);
    assert "n" !in Accepted(c.trueTexts) && "n" !in Accepted(c.falseTexts);
  }

  /**
   * With a single true text and a tuple of false texts, `False` is written
   * as the whole tuple instead of a string.
   */
  lemma BooleanEncodeAsWrittenTuple()
    ensures var c := BooleanCodec(Single("true"), Several(["false", "off"]), PyNone);
            BooleanEncodeAsWritten(c, PyBool(false)) == Ok(PySeq([PyStr("false"), PyStr("off")]))
            && BooleanEncode(c, PyBool(false)) == Ok(PyStr("false"))
  {
    var c := BooleanCodec(Single("true"), Several(["false", "off"]), PyNone);
    assert TextsValue(c.falseTexts) == PySeq([PyStr("false"), PyStr("off")]);
  }

  /** `Boolean(default_value=False).decode(None) is False`, and unknown text fails. */
  lemma BooleanDefault()
    ensures var c := BooleanCodec(Single("true"), Single("false"), PyBool(false));
            BooleanDecode(c, None) == Ok(PyBool(false))
            && BooleanDecode(c, Some("another")) == Err(DecodeError)
            && BooleanEncode(c, PyStr("string")) == Err(EncodeError)
  {
  }
}
