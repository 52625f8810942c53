/**
 * `CommaSeparatedList`, the attribute codec that subscribe.py, feedlist.py
 * and feed.py each define with the same body: a list of labels is written
 * as the labels joined by `,`, and text is read back by splitting on `,`
 * and stripping each piece.
 */
module CommaLists {
  import opened Wrappers
  import opened Strings

  /** What `encode` may be handed: `None`, one text, or a list of texts. */
  datatype Labels = NoLabels | OneText(text: string) | LabelList(items: seq<string>)

  /**
   * `CommaSeparatedList.encode`: a list is its first label followed by
   * each further label with a comma before it.
   */
  function Encode(value: Labels): (r: string)
    ensures value.NoLabels? ==> r == ""
    ensures value.OneText? ==> r == value.text
    ensures value.LabelList? && value.items == [] ==> r == ""
    ensures value.LabelList? && value.items != [] ==> r == value.items[0] + Concat(CommaFirst(value.items[1..]))
  {
    match value
    case NoLabels => ""
    case OneText(t) => t
    case LabelList(items) =>
      if items == [] then Join(items, ",")
      else JoinCommas(items); Join(items, ",")
  }

  /** Each label with a comma in front. */
  function CommaFirst(items: seq<string>): (r: seq<string>)
    ensures |r| == |items|
  {
    seq(|items|, i requires 0 <= i < |items| => "," + items[i])
  }

  /** `','.join` puts a comma in front of every label but the first. */
  lemma {:induction false} JoinCommas(items: seq<string>)
    requires items != []
    ensures Join(items, ",") == items[0] + Concat(CommaFirst(items[1..]))
    decreases |items|
  {
    if |items| > 1 {
      JoinCommas(items[1..]);
      var c := CommaFirst(items[1..]);
      assert c[0] == "," + items[1];
      assert c[1..] == CommaFirst(items[1..][1..]);
    }
  }

  /** `['technology', 'business']` is written `'technology,business'`. */
  lemma EncodePair()
    ensures Encode(LabelList(["technology", "business"])) == "technology,business"
  {
    var c := CommaFirst(["business"]);
    assert c[0] == "," + "business" == ",business";
    assert c[1..] == [];
    assert Concat(c) == ",business";
  }

  /** `CommaSeparatedList.decode`. */
  function Decode(text: Option<string>): (r: seq<string>)
    ensures text.None? ==> r == []
    ensures text.Some? ==> |r| >= 1
  {
    match text
    case None => []
    case Some(t) =>
      var pieces := Split(t, ',');
      seq(|pieces|, i requires 0 <= i < |pieces| => Strip(pieces[i]))
  }

  /** A label the codec carries unchanged: no comma, no surrounding whitespace. */
  predicate PlainLabel(x: string)
  {
    ',' !in x && Strip(x) == x
  }

  /**
   * Decoding what `encode` wrote for a non-empty list of plain labels gives
   * the list back.
   */
  lemma DecodeEncode(items: seq<string>)
    requires |items| >= 1
    requires forall i :: 0 <= i < |items| ==> PlainLabel(items[i])
    ensures Decode(Some(Encode(LabelList(items)))) == items
  {
    SplitJoin(items, ',');
  }

  /**
   * The empty list does not survive: it is written as `""`, which decodes
   * to one empty label.
   */
  lemma EmptyListDecodesToOneLabel()
    ensures Encode(LabelList([])) == ""
    ensures Decode(Some(Encode(LabelList([])))) == [""]
  {
    assert Split("", ',') == [""];
  }

  /** Whitespace after a comma is dropped: `'technology, business'` reads as two labels. */
  lemma DecodeSpacedPair(a: string, b: string)
    requires PlainLabel(a) && PlainLabel(b)
    ensures Decode(Some(a + ", " + b)) == [a, b]
  {
    assert a + ", " + b == a + [','] + (" " + b);
    SplitAfterPiece(a, ',', " " + b);
    SplitWithoutSeparator(" " + b, ',');
    LStripCons(' ', b);
    LStripSuffix(b);
    assert LStrip(b) == b;
  }
}
