/**
 * The pulling XML tree builder of schema.py.  A document class declares
 * its children with `Child` descriptors and its text with a `Content`
 * descriptor; a SAX content handler builds element objects as parse
 * events arrive, and the descriptor getters feed more input only until
 * the value they were asked for exists.
 *
 * The SAX parser is not modelled: each input chunk is given as the
 * sequence of events feeding it produces.  A class's attributes are given
 * as the list `dir()` returns for it (sorted by name, inherited ones
 * included), each with the kind of descriptor it holds.
 */
module Schema {
  import opened Wrappers
  import Strings

  // ---------------------------------------------------------------------
  // Descriptors and classes

  /** Python truthiness of a value handed in as a flag. */
  predicate Truthy(v: Value)
  {
    match v
    case PyNone => false
    case PyBool(b) => b
    case PyInt(i) => i != 0
    case PyStr(s) => s != ""
    case PySeq(items) => items != []
    case PyOther => true
  }

  /** What a class attribute holds. */
  datatype Descriptor =
    | ChildDesc(tag: string, elementType: string, required: bool, multiple: bool)
    | ContentDesc
    | OtherAttr

  /** What `Child` is given as its element type. */
  datatype ClassArg = NotAClass | NonElementClass | ElementClass(name: string)

  /**
   * `Child.__init__`: the element type must be a class and a subclass of
   * `Element`, and a child cannot be both required and multiple; the
   * flags are kept as booleans.
   */
  function NewChild(tag: string, elementType: ClassArg, required: Value, multiple: Value): (r: Result<Descriptor>)
    ensures !elementType.ElementClass? ==> r == Err(TypeError)
    ensures elementType.ElementClass? ==> (r.Err? <==> Truthy(required) && Truthy(multiple))
    ensures r.Err? ==> r.error == TypeError
    ensures r.Ok? ==> r.value.ChildDesc? && r.value.tag == tag && r.value.elementType == elementType.name
    ensures r.Ok? ==> r.value.required == Truthy(required) && r.value.multiple == Truthy(multiple)
    ensures r.Ok? ==> !(r.value.required && r.value.multiple)
  {
    match elementType
    case NotAClass => Err(TypeError)
    case NonElementClass => Err(TypeError)
    case ElementClass(name) =>
      if Truthy(required) && Truthy(multiple) then Err(TypeError)
      else Ok(ChildDesc(tag, name, Truthy(required), Truthy(multiple)))
  }

  /**
   * A document schema: the tag and class of the document element, each
   * element class's attributes in `dir()` order, and which classes are
   * subclasses of which (besides each class itself).
   */
  datatype Schema = Schema(
    rootTag: string,
    rootType: string,
    attrs: map<string, seq<(string, Descriptor)>>,
    subtypes: set<(string, string)>)

  function Attrs(s: Schema, typ: string): seq<(string, Descriptor)>
  {
    if typ in s.attrs then s.attrs[typ] else []
  }

  /** `isinstance` of an element of class `typ` against class `target`. */
  predicate IsInstance(s: Schema, typ: string, target: string)
  {
    typ == target || (typ, target) in s.subtypes
  }

  /** `getattr(cls, name)`: the first attribute of that name, if any. */
  function Lookup(entries: seq<(string, Descriptor)>, name: string): (r: Option<Descriptor>)
    ensures r.None? <==> forall i :: 0 <= i < |entries| ==> entries[i].0 != name
    ensures r.Some? ==> exists i :: 0 <= i < |entries| && entries[i] == (name, r.value)
  {
    if entries == [] then None
    else if entries[0].0 == name then Some(entries[0].1)
    else Lookup(entries[1..], name)
  }

  /**
   * The attribute `endElement` stores text in: the first attribute in
   * `dir()` order that holds a `Content` descriptor.
   */
  function ContentAttr(entries: seq<(string, Descriptor)>): (r: Option<nat>)
    ensures r.Some? ==> r.value < |entries| && entries[r.value].1 == ContentDesc
    ensures r.Some? ==> forall i :: 0 <= i < r.value ==> entries[i].1 != ContentDesc
    ensures r.None? ==> forall i :: 0 <= i < |entries| ==> entries[i].1 != ContentDesc
  {
    if entries == [] then None
    else if entries[0].1 == ContentDesc then Some(0)
    else
      var rest := ContentAttr(entries[1..]);
      if rest.None? then None else Some(rest.value + 1)
  }

  /** `Content.__get__`'s answer: the content, or `''` when there is none. */
  function ContentText(content: Option<string>): (r: string)
    ensures content.None? ==> r == ""
    ensures content.Some? ==> r == content.value
  {
    if content.Some? && content.value != "" then content.value else ""
  }

  /**
   * `DocumentElement.__init__`'s argument checks, given the number of
   * positional arguments and whether keywords were passed: keywords with
   * a positional argument, or more than one positional argument, are
   * `TypeError`; keywords alone fail `Element.__init__`'s assertion.  On
   * success, tells whether a parser over the one iterable is set up.
   */
  function InitArguments(positional: nat, keywords: bool): (r: Result<bool>)
    ensures r == Err(TypeError) <==> (keywords && positional > 0) || positional > 1
    ensures r == Err(AssertionError) <==> keywords && positional == 0
    ensures r.Ok? <==> !keywords && positional <= 1
    ensures r.Ok? ==> (r.value <==> positional == 1)
  {
    if keywords && positional > 0 then Err(TypeError)
    else if positional > 1 then Err(TypeError)
    else if keywords then Err(AssertionError)
    else Ok(positional == 1)
  }

  // ---------------------------------------------------------------------
  // The handler on values

  datatype Event = Start(name: string) | Chars(text: string) | End(name: string)

  /** A handler stack frame, with its element reduced to the element's class. */
  datatype Open = Open(name: string, typ: string, chars: seq<string>)

  /**
   * One SAX event applied to the stack: the first start tag must be the
   * document's tag; later ones must name a `Child` attribute of the
   * enclosing element's class (a `Content` attribute is not implemented,
   * anything else is a syntax error) and push a frame for the child's
   * class.  Text goes to the top frame; an end tag pops the top frame,
   * whose name it must match.
   */
  function Step(s: Schema, opens: seq<Open>, e: Event): (r: Result<seq<Open>>)
    ensures e.Start? && r.Ok? ==> |r.value| == |opens| + 1 && r.value[..|opens|] == opens
    ensures e.Start? && r.Ok? ==> r.value[|opens|].name == e.name && r.value[|opens|].chars == []
    ensures e.Start? && opens == [] ==> (r.Ok? <==> e.name == s.rootTag)
    ensures e.Chars? ==> (r.Ok? <==> opens != [])
    ensures e.Chars? && r.Ok? ==> |r.value| == |opens| && r.value[..|opens| - 1] == opens[..|opens| - 1]
    ensures e.Chars? && r.Ok? ==> r.value[|opens| - 1] == opens[|opens| - 1].(chars := opens[|opens| - 1].chars + [e.text])
    ensures e.End? ==> (r.Ok? <==> opens != [] && opens[|opens| - 1].name == e.name)
    ensures e.End? && r.Ok? ==> r.value == opens[..|opens| - 1]
    ensures r.Err? ==> r.error in {SyntaxError, NotImplementedError, IndexError, AssertionError}
  {
    match e
    case Start(name) =>
      if opens == [] then
        if name != s.rootTag then Err(SyntaxError) else Ok([Open(name, s.rootType, [])])
      else
        match Lookup(Attrs(s, opens[|opens| - 1].typ), name) {
          case None => Err(SyntaxError)
          case Some(ChildDesc(_, elementType, _, _)) => Ok(opens + [Open(name, elementType, [])])
          case Some(ContentDesc) => Err(NotImplementedError)
          case Some(OtherAttr) => Err(SyntaxError)
        }
    case Chars(text) =>
      if opens == [] then Err(IndexError)
      else
        var top := opens[|opens| - 1];
        Ok(opens[..|opens| - 1] + [top.(chars := top.chars + [text])])
    case End(name) =>
      if opens == [] then Err(IndexError)
      else if opens[|opens| - 1].name != name then Err(AssertionError)
      else Ok(opens[..|opens| - 1])
  }

  /** A sequence of events applied in order, stopping at the first error. */
  function Run(s: Schema, opens: seq<Open>, events: seq<Event>): Result<seq<Open>>
    decreases |events|
  {
    if events == [] then Ok(opens)
    else
      match Step(s, opens, events[0])
      case Err(e) => Err(e)
      case Ok(next) => Run(s, next, events[1..])
  }

  lemma {:induction false} RunAppend(s: Schema, opens: seq<Open>, a: seq<Event>, b: seq<Event>)
    ensures Run(s, opens, a + b) ==
      (match Run(s, opens, a) case Err(e) => Err(e) case Ok(mid) => Run(s, mid, b))
    decreases |a|
  {
    if a == [] {
      assert a + b == b;
    } else {
      assert (a + b)[0] == a[0] && (a + b)[1..] == a[1..] + b;
      match Step(s, opens, a[0])
      case Err(_) =>
      case Ok(next) => RunAppend(s, next, a[1..], b);
    }
  }

  /** How an event changes the nesting depth. */
  function Delta(e: Event): int
  {
    if e.Start? then 1 else if e.End? then -1 else 0
  }

  /** Start tags minus end tags. */
  function Depth(events: seq<Event>): int
  {
    if events == [] then 0
    else Depth(events[..|events| - 1]) + Delta(events[|events| - 1])
  }

  /** No prefix of `events` closes more elements than it opened. */
  predicate Inside(events: seq<Event>)
  {
    Depth(events) >= 0 &&
    forall k :: 0 <= k <= |events| ==> Depth(events[..k]) >= 0
  }

  /** The text events of `events` that are not inside a nested element. */
  function DirectText(events: seq<Event>): seq<string>
  {
    if events == [] then []
    else
      var p := events[..|events| - 1];
      var e := events[|events| - 1];
      if e.Chars? && Depth(p) == 0 then DirectText(p) + [e.text] else DirectText(p)
  }

  /**
   * One event on a stack `d` frames above the frame `q` that sits over
   * `opens`: the frames below stay, and `q` gains the text only when the
   * event is text and nothing is open above `q`.
   */
  lemma FrameStep(s: Schema, opens: seq<Open>, q: Open, d: int, mid: seq<Open>, e: Event, after: seq<Open>)
    requires d >= 0 && d + Delta(e) >= 0
    requires |mid| == |opens| + 1 + d && mid[..|opens|] == opens && mid[|opens|] == q
    requires Step(s, mid, e) == Ok(after)
    ensures |after| == |opens| + 1 + d + Delta(e) && after[..|opens|] == opens
    ensures after[|opens|] == (if e.Chars? && d == 0 then q.(chars := q.chars + [e.text]) else q)
  {
    match e
    case Start(_) =>
      assert after[..|mid|] == mid;
      assert after[..|opens|] == mid[..|opens|];
    case Chars(t) =>
      assert after[..|mid| - 1] == mid[..|mid| - 1];
      if d > 0 {
        assert after[..|opens|] == mid[..|opens|];
      }
    case End(_) =>
      assert after[..|opens|] == mid[..|opens|];
  }

  /**
   * Events that stay inside an open element leave the frames below it
   * alone, sit `Depth` frames above it, and add to that element's frame
   * exactly the text that is not inside a nested element.
   */
  lemma {:induction false} BodyKeepsFrame(s: Schema, opens: seq<Open>, o: Open, body: seq<Event>)
    requires Inside(body) && Run(s, opens + [o], body).Ok?
    ensures var r := Run(s, opens + [o], body).value;
      |r| == |opens| + 1 + Depth(body) && r[..|opens|] == opens &&
      r[|opens|] == o.(chars := o.chars + DirectText(body))
    decreases |body|
  {
    var start := opens + [o];
    if body == [] {
      assert o.chars + [] == o.chars;
      assert start[..|opens|] == opens;
    } else {
      var p := body[..|body| - 1];
      var e := body[|body| - 1];
      assert body == p + [e];
      RunAppend(s, start, p, [e]);
      assert Inside(p) by {
        forall k | 0 <= k <= |p| ensures Depth(p[..k]) >= 0 {
          assert p[..k] == body[..k];
        }
        assert p == body[..|p|];
      }
      BodyKeepsFrame(s, opens, o, p);
      var mid := Run(s, start, p).value;
      var after := Step(s, mid, e).value;
      assert Run(s, mid, [e]) == Ok(after);
      var q := o.(chars := o.chars + DirectText(p));
      FrameStep(s, opens, q, Depth(p), mid, e, after);
      if e.Chars? && Depth(p) == 0 {
        assert o.chars + DirectText(p) + [e.text] == o.chars + (DirectText(p) + [e.text]);
      }
    }
  }

  /**
   * A complete element whose body stays inside it leaves the stack as it
   * found it, and the frame popped by its end tag holds exactly the text
   * directly inside it: text inside a child element never reaches the
   * parent.
   */
  lemma ElementRestoresStack(s: Schema, opens: seq<Open>, name: string, body: seq<Event>)
    requires Inside(body) && Depth(body) == 0
    requires Run(s, opens, [Start(name)] + body + [End(name)]).Ok?
    ensures Run(s, opens, [Start(name)] + body + [End(name)]) == Ok(opens)
    ensures exists typ :: Run(s, opens, [Start(name)] + body) == Ok(opens + [Open(name, typ, DirectText(body))])
  {
    var events := [Start(name)] + body + [End(name)];
    RunAppend(s, opens, [Start(name)] + body, [End(name)]);
    RunAppend(s, opens, [Start(name)], body);
    var first := Step(s, opens, Start(name));
    assert Run(s, opens, [Start(name)]) == first;
    assert first.Ok?;
    var o := first.value[|opens|];
    assert first.value == opens + [o];
    BodyKeepsFrame(s, opens, o, body);
    var inner := Run(s, opens + [o], body).value;
    assert inner == opens + [o.(chars := o.chars + DirectText(body))];
    assert o.chars + DirectText(body) == DirectText(body);
    assert Run(s, opens, [Start(name)] + body) == Ok(opens + [Open(name, o.typ, DirectText(body))]);
    assert Run(s, inner, [End(name)]) == Step(s, inner, End(name));
  }

  // ---------------------------------------------------------------------
  // Elements and the document

  /** An element object: its class, its text, and its children by tag. */
  class Element {
    const typ: string
    var content: Option<string>
    var data: map<string, Element>

    /** `Element.__init__`: no content, no children yet. */
    constructor(typ: string)
      ensures this.typ == typ && content.None? && data == map[]
    {
      this.typ := typ;
      content := None;
      data := map[];
    }
  }

  /**
   * `Child.__set__`: only an instance of the child's element class is
   * stored, under the child's tag; anything else is `AttributeError`.
   */
  method SetChild(s: Schema, d: Descriptor, obj: Element, value: Arg<Element>) returns (r: Result<()>)
    requires d.ChildDesc?
    modifies obj
    ensures obj.content == old(obj.content)
    ensures r.Ok? <==> value.Instance? && IsInstance(s, value.value.typ, d.elementType)
    ensures r.Ok? ==> obj.data == old(obj.data)[d.tag := value.value]
    ensures r.Err? ==> r.error == AttributeError && obj.data == old(obj.data)
  {
    if value.Instance? && IsInstance(s, value.value.typ, d.elementType) {
      obj.data := obj.data[d.tag := value.value];
      return Ok(());
    }
    return Err(AttributeError);
  }

  /** `Content.__set__`: the element's text is replaced. */
  method SetContent(obj: Element, value: string)
    modifies obj
    ensures obj.content == Some(value) && obj.data == old(obj.data)
  {
    obj.content := Some(value);
  }

  /** A handler stack frame: the tag, the element, the text chunks so far. */
  datatype Frame = Frame(name: string, element: Element, chars: seq<string>)

  function Opens(stack: seq<Frame>): (r: seq<Open>)
    ensures |r| == |stack|
    ensures forall i :: 0 <= i < |stack| ==>
      r[i] == Open(stack[i].name, stack[i].element.typ, stack[i].chars)
  {
    seq(|stack|, i requires 0 <= i < |stack| => Open(stack[i].name, stack[i].element.typ, stack[i].chars))
  }

  /**
   * A `DocumentElement` together with its `ContentHandler`: the document
   * element itself, the handler's stack, and the input chunks not fed to
   * the parser yet.
   */
  class Document {
    const schema: Schema
    const root: Element
    const hasParser: bool
    var stack: seq<Frame>
    var pending: seq<seq<Event>>
    /** Every element object of this document. */
    ghost var Elements: set<Element>

    ghost predicate Valid()
      reads this
    {
      root in Elements && root.typ == schema.rootType &&
      forall i :: 0 <= i < |stack| ==> stack[i].element in Elements
    }

    /** The input still pending is what is left of `before` after feeding some of it. */
    ghost predicate Consumed(before: seq<seq<Event>>)
      reads this
    {
      |pending| <= |before| && pending == before[|before| - |pending|..]
    }

    /** The document is still valid and has only gained new elements. */
    twostate predicate Grew()
      reads this
    {
      Valid() && Elements >= old(Elements) && fresh(Elements - old(Elements))
    }

    /**
     * `DocumentElement.__init__` once its argument checks pass: with an
     * iterable the parser is set up over it, and the stack starts empty.
     */
    constructor(schema: Schema, source: Option<seq<seq<Event>>>)
      ensures Valid() && fresh(Elements)
      ensures this.schema == schema && root.content.None? && root.data == map[]
      ensures hasParser == source.Some? && stack == []
      ensures pending == (if source.Some? then source.value else [])
    {
      this.schema := schema;
      var r := new Element(schema.rootType);
      root := r;
      hasParser := source.Some?;
      stack := [];
      pending := if source.Some? then source.value else [];
      Elements := {r};
    }

    /**
     * `startElement`: the document element's tag opens the document
     * element; a later tag naming a `Child` attribute of the enclosing
     * element's class creates a child element, stores it in the parent
     * under the child's tag, and pushes its frame.
     */
    method StartElement(name: string) returns (r: Result<()>)
      requires Valid()
      modifies this, Elements
      ensures Valid() && Elements >= old(Elements) && fresh(Elements - old(Elements))
      ensures pending == old(pending)
      ensures r.Ok? <==> Step(schema, Opens(old(stack)), Start(name)).Ok?
      ensures r.Err? ==> Step(schema, Opens(old(stack)), Start(name)) == Err(r.error)
      ensures r.Err? ==> stack == old(stack) && forall x :: x in old(Elements) ==> unchanged(x)
      ensures r.Ok? ==> Opens(stack) == Step(schema, Opens(old(stack)), Start(name)).value
      ensures r.Ok? && old(stack) == [] ==> stack == [Frame(name, root, [])] && forall x :: x in old(Elements) ==> unchanged(x)
      ensures r.Ok? && old(stack) != [] ==>
        var parent := old(stack)[|old(stack)| - 1].element;
        var child := stack[|stack| - 1].element;
        var d := Lookup(Attrs(schema, parent.typ), name).value;
        fresh(child) && d.ChildDesc? && child.typ == d.elementType &&
        child.content.None? && child.data == map[] &&
        stack == old(stack) + [Frame(name, child, [])] &&
        parent.data == old(parent.data)[d.tag := child] && parent.content == old(parent.content) &&
        forall x :: x in old(Elements) && x != parent ==> unchanged(x)
    {
      if stack == [] {
        if name != schema.rootTag {
          return Err(SyntaxError);
        }
        stack := [Frame(name, root, [])];
        return Ok(());
      }
      var parent := stack[|stack| - 1].element;
      var found := Lookup(Attrs(schema, parent.typ), name);
      if found.None? {
        return Err(SyntaxError);
      }
      match found.value {
        case ChildDesc(tag, elementType, _, _) =>
          var child := new Element(elementType);
          parent.data := parent.data[tag := child];
          Elements := Elements + {child};
          stack := stack + [Frame(name, child, [])];
          return Ok(());
        case ContentDesc =>
          return Err(NotImplementedError);
        case OtherAttr =>
          return Err(SyntaxError);
      }
    }

    /** `characters`: the text is added to the top frame only. */
    method Characters(text: string) returns (r: Result<()>)
      requires Valid()
      modifies this
      ensures Valid() && Elements == old(Elements) && pending == old(pending)
      ensures r.Ok? <==> old(stack) != []
      ensures r.Err? ==> r.error == IndexError && stack == old(stack)
      ensures r.Ok? ==>
        stack == old(stack)[..|old(stack)| - 1] +
                 [old(stack)[|old(stack)| - 1].(chars := old(stack)[|old(stack)| - 1].chars + [text])]
      ensures r.Ok? ==> Opens(stack) == Step(schema, Opens(old(stack)), Chars(text)).value
    {
      if stack == [] {
        return Err(IndexError);
      }
      var top := stack[|stack| - 1];
      stack := stack[..|stack| - 1] + [top.(chars := top.chars + [text])];
      return Ok(());
    }

    /**
     * `endElement`: pops the top frame, whose tag must be the end tag's;
     * when the element's class has a `Content` attribute, the element's
     * content becomes the frame's text chunks joined together.
     */
    method EndElement(name: string) returns (r: Result<()>)
      requires Valid()
      modifies this, Elements
      ensures Valid() && Elements == old(Elements) && pending == old(pending)
      ensures old(stack) == [] ==> r == Err(IndexError) && stack == []
      ensures old(stack) != [] ==> stack == old(stack)[..|old(stack)| - 1]
      ensures r.Ok? <==> Step(schema, Opens(old(stack)), End(name)).Ok?
      ensures r.Err? ==> Step(schema, Opens(old(stack)), End(name)) == Err(r.error)
      ensures r.Ok? ==> Opens(stack) == Step(schema, Opens(old(stack)), End(name)).value
      ensures r.Err? ==> forall x :: x in old(Elements) ==> unchanged(x)
      ensures r.Ok? ==>
        var top := old(stack)[|old(stack)| - 1];
        top.element.data == old(top.element.data) &&
        (ContentAttr(Attrs(schema, top.element.typ)).Some? ==> top.element.content == Some(Strings.Concat(top.chars))) &&
        (ContentAttr(Attrs(schema, top.element.typ)).None? ==> top.element.content == old(top.element.content)) &&
        forall x :: x in old(Elements) && x != top.element ==> unchanged(x)
    {
      if stack == [] {
        return Err(IndexError);
      }
      var top := stack[|stack| - 1];
      stack := stack[..|stack| - 1];
      if name != top.name {
        return Err(AssertionError);
      }
      var attr := ContentAttr(Attrs(schema, top.element.typ));
      if attr.Some? {
        top.element.content := Some(Strings.Concat(top.chars));
      }
      return Ok(());
    }

    /**
     * `parser.feed(chunk)`: the chunk's events go to the handler in order;
     * the first handler error ends the feed.
     */
    method Feed(chunk: seq<Event>) returns (r: Result<()>)
      requires Valid()
      modifies this, Elements
      ensures Valid() && Elements >= old(Elements) && fresh(Elements - old(Elements))
      ensures pending == old(pending)
      ensures r.Ok? <==> Run(schema, Opens(old(stack)), chunk).Ok?
      ensures r.Err? ==> Run(schema, Opens(old(stack)), chunk) == Err(r.error)
      ensures r.Ok? ==> Opens(stack) == Run(schema, Opens(old(stack)), chunk).value
    {
      var i := 0;
      while i < |chunk|
        invariant 0 <= i <= |chunk|
        invariant Valid() && Elements >= old(Elements) && fresh(Elements - old(Elements))
        invariant pending == old(pending)
        invariant Run(schema, Opens(old(stack)), chunk) == Run(schema, Opens(stack), chunk[i..])
      {
        var e := chunk[i];
        ghost var before := Opens(stack);
        assert chunk[i..][0] == e && chunk[i..][1..] == chunk[i + 1..];
        var step: Result<()>;
        match e {
          case Start(name) => step := StartElement(name);
          case Chars(text) => step := Characters(text);
          case End(name) => step := EndElement(name);
        }
        if step.Err? {
          return Err(step.error);
        }
        assert Step(schema, before, e) == Ok(Opens(stack));
        i := i + 1;
      }
      assert chunk[|chunk|..] == [];
      return Ok(());
    }

    /**
     * `Child.__get__` on an element: while the element has no child under
     * `tag`, the next input chunk is fed; it stops when the child exists
     * or the input is exhausted.  A document made without an iterable has
     * no handler (`AttributeError`).
     */
    method PullChild(obj: Element, tag: string) returns (r: Result<Option<Element>>)
      requires Valid()
      modifies this, Elements
      ensures Grew()
      ensures !hasParser ==> r == Err(AttributeError)
      ensures Consumed(old(pending))
      ensures hasParser && old(tag in obj.data) ==>
        r == Ok(Some(old(obj.data[tag]))) && pending == old(pending) && stack == old(stack)
      ensures r.Ok? ==> (tag in obj.data ==> r.value == Some(obj.data[tag]))
      ensures r.Ok? ==> (tag !in obj.data ==> r.value.None? && pending == [])
    {
      if !hasParser {
        return Err(AttributeError);
      }
      while tag !in obj.data
        invariant Grew() && Consumed(old(pending))
        invariant old(tag in obj.data) ==> obj.data == old(obj.data) && pending == old(pending) && stack == old(stack)
        decreases |pending|
      {
        if pending == [] {
          break;
        }
        var chunk := pending[0];
        pending := pending[1..];
        var fed := Feed(chunk);
        if fed.Err? {
          return Err(fed.error);
        }
      }
      if tag in obj.data {
        return Ok(Some(obj.data[tag]));
      }
      return Ok(None);
    }

    /**
     * `Content.__get__` on an element: while the element has no content,
     * the next input chunk is fed; the answer is the content, or `''`
     * when the input ran out first.
     */
    method PullContent(obj: Element) returns (r: Result<string>)
      requires Valid()
      modifies this, Elements
      ensures Grew()
      ensures !hasParser ==> r == Err(AttributeError)
      ensures Consumed(old(pending))
      ensures hasParser && old(obj.content.Some?) ==>
        r == Ok(old(obj.content.value)) && pending == old(pending) && stack == old(stack)
      ensures r.Ok? ==> r.value == ContentText(obj.content)
      ensures r.Ok? && obj.content.None? ==> pending == [] && r.value == ""
    {
      if !hasParser {
        return Err(AttributeError);
      }
      while obj.content.None?
        invariant Grew() && Consumed(old(pending))
        invariant old(obj.content.Some?) ==> obj.content == old(obj.content) && pending == old(pending) && stack == old(stack)
        decreases |pending|
      {
        if pending == [] {
          break;
        }
        var chunk := pending[0];
        pending := pending[1..];
        var fed := Feed(chunk);
        if fed.Err? {
          return Err(fed.error);
        }
      }
      return Ok(ContentText(obj.content));
    }
  }
}
