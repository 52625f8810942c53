/**
 * Sessions and the two-document merge of `libearth.session`.
 *
 * A `Session` is interned by its identifier in a `SessionPool` (the
 * class-level `interns` dictionary).  A mergeable document is a
 * `Document`: its revision, its base revisions and a fixed record of
 * fields standing for what the reflective walk over child tags,
 * attributes and content visits.  Elements of child lists are values of
 * a type `E`; what the source asks of them (`isinstance(e, Element)`,
 * `__entity_id__()` and `__merge_entities__`) comes in as `Hooks`.
 */
module Sessions {
  import opened Wrappers
  import opened Strings
  import opened Revisions

  // ---------------------------------------------------------------- hooks

  /**
   * What `merge` asks of child values: whether one is an `Element`, the
   * `entity_id` lambda (`__entity_id__()` for an element, the value itself
   * otherwise) and `newer.__merge_entities__(older)`.
   */
  datatype Hooks<!E, K> = Hooks(isElement: E -> bool, entityId: E -> K, mergeEntities: (E, E) -> E)

  /** The ids of the values of a list. */
  function KeySet<E(==,!new), K(==,!new)>(h: Hooks<E, K>, s: seq<E>): set<K>
  {
    set x | x in s :: h.entityId(x)
  }

  /** No two values of the list share an id. */
  predicate DistinctIds<E(==,!new), K(==,!new)>(h: Hooks<E, K>, s: seq<E>)
  {
    forall i, j :: 0 <= i < j < |s| ==> h.entityId(s[i]) != h.entityId(s[j])
  }

  // ------------------------------------------------------ one child slot

  /**
   * The merge of a single-child slot: whichever side is present, the
   * newer element merged with the older one when both are, and the newer
   * value when it is not an element.
   */
  function MergeSingle<E(==,!new), K(==,!new)>(h: Hooks<E, K>, older: Option<E>, newer: Option<E>): (r: Option<E>)
    ensures r.None? <==> older.None? && newer.None?
    ensures older.None? ==> r == newer
    ensures newer.None? ==> r == older
    ensures older.Some? && newer.Some? && !h.isElement(newer.value) ==> r == newer
    ensures older.Some? && newer.Some? && h.isElement(newer.value)
            ==> r == Some(h.mergeEntities(newer.value, older.value))
  {
    if older.None? then newer
    else if newer.None? then older
    else if h.isElement(newer.value) then Some(h.mergeEntities(newer.value, older.value))
    else newer
  }

  // ---------------------------------------------------------- child lists

  /** `list.remove(x)`: drops the first value equal to `x`. */
  function Remove<E(==)>(s: seq<E>, x: E): (r: seq<E>)
    ensures x in s ==> |r| == |s| - 1 && multiset(r) == multiset(s) - multiset{x}
    ensures x !in s ==> r == s
  {
    if s == [] then []
    else
      assert s == [s[0]] + s[1..];
      if s[0] == x then s[1..] else [s[0]] + Remove(s[1..], x)
  }

  /**
   * `dict((entity_id(e), e) for e in a_list)`: each id of the list, with
   * the last value that has it.
   */
  function IdMap<E(==,!new), K(==,!new)>(h: Hooks<E, K>, s: seq<E>): (m: map<K, E>)
    ensures m.Keys == KeySet(h, s)
    ensures forall k :: k in m ==> m[k] in s && h.entityId(m[k]) == k
  {
    if s == [] then map[]
    else
      var m := IdMap(h, s[1..]);
      assert forall x :: x in s <==> x == s[0] || x in s[1..];
      if h.entityId(s[0]) in m then m else m[h.entityId(s[0]) := s[0]]
  }

  /** The state of the loop over the newer list: `merged_attr` and `identifiers`. */
  datatype ListState<E, K> = ListState(merged: seq<E>, ids: map<K, E>)

  /** One turn of the loop, for the newer value `x`. */
  function MergeStep<E(==,!new), K(==,!new)>(h: Hooks<E, K>, st: ListState<E, K>, x: E): ListState<E, K>
  {
    var k := h.entityId(x);
    if k in st.ids then
      var me := if h.isElement(x) then h.mergeEntities(x, st.ids[k]) else x;
      ListState(Remove(st.merged, st.ids[k]) + [me], st.ids[k := me])
    else
      ListState(st.merged + [x], st.ids[k := x])
  }

  /** The loop run over the newer values `rest`. */
  function MergeFold<E(==,!new), K(==,!new)>(h: Hooks<E, K>, st: ListState<E, K>, rest: seq<E>): ListState<E, K>
    decreases |rest|
  {
    if rest == [] then st else MergeFold(h, MergeStep(h, st, rest[0]), rest[1..])
  }

  /** The merged list of a list-child slot. */
  function MergedList<E(==,!new), K(==,!new)>(h: Hooks<E, K>, older: seq<E>, newer: seq<E>): seq<E>
  {
    MergeFold(h, ListState(older, IdMap(h, older)), newer).merged
  }

  /** The older values whose ids are not in `gone`, in order. */
  function Survivors<E(==,!new), K(==,!new)>(h: Hooks<E, K>, older: seq<E>, gone: set<K>): (r: seq<E>)
  {
    if older == [] then []
    else
      (if h.entityId(older[0]) in gone then [] else [older[0]]) + Survivors(h, older[1..], gone)
  }

  /** The survivors are exactly the older values whose ids are not gone. */
  lemma {:induction false} SurvivorsMembers<E(!new), K(!new)>(h: Hooks<E, K>, older: seq<E>, gone: set<K>)
    ensures forall x :: x in Survivors(h, older, gone) <==> x in older && h.entityId(x) !in gone
    decreases |older|
  {
    if older != [] {
      SurvivorsMembers(h, older[1..], gone);
      SurvivorsCons(h, older, gone);
      assert forall x :: x in older <==> x == older[0] || x in older[1..];
    }
  }

  /** A newer value, merged with the older value of its id when it is an element. */
  function Replaced<E(==,!new), K(==,!new)>(h: Hooks<E, K>, x: E, olderIds: map<K, E>): E
  {
    var k := h.entityId(x);
    if k in olderIds && h.isElement(x) then h.mergeEntities(x, olderIds[k]) else x
  }

  /** The newer values, each replaced as above, in order. */
  function Replacements<E(==,!new), K(==,!new)>(h: Hooks<E, K>, newer: seq<E>, olderIds: map<K, E>): (r: seq<E>)
    ensures |r| == |newer|
    ensures forall i :: 0 <= i < |newer| ==> r[i] == Replaced(h, newer[i], olderIds)
  {
    seq(|newer|, i requires 0 <= i < |newer| => Replaced(h, newer[i], olderIds))
  }

  /**
   * With ids unique within each list, the merged list is the older values
   * whose ids the newer list lacks, then the newer values, each merged
   * with the older value of the same id.
   */
  lemma MergedListShape<E(!new), K(!new)>(h: Hooks<E, K>, older: seq<E>, newer: seq<E>)
    requires DistinctIds(h, older) && DistinctIds(h, newer)
    ensures MergedList(h, older, newer)
            == Survivors(h, older, KeySet(h, newer)) + Replacements(h, newer, IdMap(h, older))
  {
    SurvivorsNone(h, older);
    assert Replacements(h, [], IdMap(h, older)) == [];
    assert older == Survivors(h, older, KeySet(h, [])) + Replacements(h, [], IdMap(h, older));
    FoldClosed(h, older, [], newer, ListState(older, IdMap(h, older)));
    assert [] + newer == newer;
  }

  lemma {:induction false} SurvivorsNone<E(!new), K(!new)>(h: Hooks<E, K>, older: seq<E>)
    ensures Survivors(h, older, KeySet(h, [])) == older
  {
    if older != [] {
      SurvivorsNone(h, older[1..]);
    }
  }

  /** What the loop state is after the newer values `done`, when ids are unique. */
  ghost predicate ClosedState<E(!new), K(!new)>(h: Hooks<E, K>, older: seq<E>, done: seq<E>, st: ListState<E, K>)
  {
    && st.merged == Survivors(h, older, KeySet(h, done)) + Replacements(h, done, IdMap(h, older))
    && forall k :: k !in KeySet(h, done) ==>
         (k in st.ids <==> k in IdMap(h, older)) && (k in st.ids ==> st.ids[k] == IdMap(h, older)[k])
  }

  /** The loop keeps the closed form for the newer values handled so far. */
  lemma {:induction false} FoldClosed<E(!new), K(!new)>(h: Hooks<E, K>, older: seq<E>, done: seq<E>, rest: seq<E>,
                                                st: ListState<E, K>)
    requires DistinctIds(h, older) && DistinctIds(h, done + rest)
    requires ClosedState(h, older, done, st)
    ensures MergeFold(h, st, rest).merged
            == Survivors(h, older, KeySet(h, done + rest)) + Replacements(h, done + rest, IdMap(h, older))
    decreases |rest|
  {
    if rest == [] {
      assert done + rest == done;
    } else {
      var x := rest[0];
      FirstNotDone(h, done, rest);
      StepClosed(h, older, done, x, st);
      assert done + rest == (done + [x]) + rest[1..];
      FoldClosed(h, older, done + [x], rest[1..], MergeStep(h, st, x));
    }
  }

  /** With unique ids, the next newer value has an id not handled yet. */
  lemma FirstNotDone<E(!new), K(!new)>(h: Hooks<E, K>, done: seq<E>, rest: seq<E>)
    requires DistinctIds(h, done + rest) && rest != []
    ensures h.entityId(rest[0]) !in KeySet(h, done)
  {
    forall y | y in done ensures h.entityId(y) != h.entityId(rest[0]) {
      var i :| 0 <= i < |done| && done[i] == y;
      assert (done + rest)[i] == y && (done + rest)[|done|] == rest[0];
    }
  }

  /** One turn of the loop keeps the closed form. */
  lemma StepClosed<E(!new), K(!new)>(h: Hooks<E, K>, older: seq<E>, done: seq<E>, x: E, st: ListState<E, K>)
    requires DistinctIds(h, older) && ClosedState(h, older, done, st)
    requires h.entityId(x) !in KeySet(h, done)
    ensures ClosedState(h, older, done + [x], MergeStep(h, st, x))
  {
    var k := h.entityId(x);
    var olderIds := IdMap(h, older);
    var gone := KeySet(h, done);
    var repl := Replacements(h, done, olderIds);
    KeySetAppend(h, done, x);
    ReplacementsAppend(h, done, x, olderIds);
    if k in st.ids {
      RemoveSurvivor(h, older, gone, olderIds[k], repl);
      StepMerged(st.merged, olderIds[k], Survivors(h, older, gone), Survivors(h, older, gone + {k}), repl,
                 Replaced(h, x, olderIds));
    } else {
      SurvivorsAbsent(h, older, gone, k);
      StepAppended(st.merged, Survivors(h, older, gone), repl, x);
    }
  }

  /** The merged list after appending a value of a new id. */
  lemma StepAppended<E(!new)>(m: seq<E>, surv: seq<E>, repl: seq<E>, x: E)
    requires m == surv + repl
    ensures m + [x] == surv + repl + [x]
  {
  }

  /** The merged list after removing the old value and appending the new one. */
  lemma StepMerged<E(!new)>(m: seq<E>, e: E, surv: seq<E>, surv': seq<E>, repl: seq<E>, me: E)
    requires m == surv + repl && Remove(surv + repl, e) == surv' + repl
    ensures Remove(m, e) + [me] == surv' + repl + [me]
  {
  }

  lemma KeySetAppend<E(!new), K(!new)>(h: Hooks<E, K>, done: seq<E>, x: E)
    ensures KeySet(h, done + [x]) == KeySet(h, done) + {h.entityId(x)}
  {
    assert forall y :: y in done + [x] <==> y in done || y == x;
  }

  lemma ReplacementsAppend<E(!new), K(!new)>(h: Hooks<E, K>, done: seq<E>, x: E, olderIds: map<K, E>)
    ensures Replacements(h, done + [x], olderIds) == Replacements(h, done, olderIds) + [Replaced(h, x, olderIds)]
  {
  }

  /** Removing the older value of an id still present moves that id to the gone ones. */
  lemma {:induction false} RemoveSurvivor<E(!new), K(!new)>(h: Hooks<E, K>, older: seq<E>, gone: set<K>, e: E, tail: seq<E>)
    requires DistinctIds(h, older) && e in older && h.entityId(e) !in gone
    ensures Remove(Survivors(h, older, gone) + tail, e) == Survivors(h, older, gone + {h.entityId(e)}) + tail
    decreases |older|
  {
    var k := h.entityId(e);
    var y, rest := older[0], older[1..];
    TailIds(h, older);
    SurvivorsCons(h, older, gone);
    SurvivorsCons(h, older, gone + {k});
    if y == e {
      SurvivorsAbsent(h, rest, gone, k);
      RemoveHead(e, Survivors(h, rest, gone), tail);
    } else {
      assert e in rest;
      RemoveSurvivor(h, rest, gone, e, tail);
      assert h.entityId(y) != k;
      if h.entityId(y) !in gone {
        RemovePast(y, e, Survivors(h, rest, gone), Survivors(h, rest, gone + {k}), tail);
      } else {
        assert [] + Survivors(h, rest, gone) == Survivors(h, rest, gone);
        assert [] + Survivors(h, rest, gone + {k}) == Survivors(h, rest, gone + {k});
      }
    }
  }

  /** The first value's id is not among the rest's, and the rest keeps unique ids. */
  lemma TailIds<E(!new), K(!new)>(h: Hooks<E, K>, s: seq<E>)
    requires DistinctIds(h, s) && s != []
    ensures h.entityId(s[0]) !in KeySet(h, s[1..]) && DistinctIds(h, s[1..])
  {
    forall x | x in s[1..] ensures h.entityId(x) != h.entityId(s[0]) {
      var i :| 0 <= i < |s[1..]| && s[1..][i] == x;
      assert s[i + 1] == x;
    }
  }

  /** One step of `Survivors`. */
  lemma SurvivorsCons<E(!new), K(!new)>(h: Hooks<E, K>, older: seq<E>, gone: set<K>)
    requires older != []
    ensures Survivors(h, older, gone)
            == (if h.entityId(older[0]) in gone then [] else [older[0]]) + Survivors(h, older[1..], gone)
  {
  }

  lemma RemoveHead<E>(e: E, r: seq<E>, tail: seq<E>)
    ensures Remove(([e] + r) + tail, e) == r + tail
  {
    assert ([e] + r) + tail == [e] + (r + tail);
    RemoveCons(e, r + tail, e);
  }

  /** `Remove` on a list with a known first value. */
  lemma RemoveCons<E>(y: E, w: seq<E>, e: E)
    ensures Remove([y] + w, e) == if y == e then w else [y] + Remove(w, e)
  {
    var s := [y] + w;
    assert s != [] && s[0] == y && s[1..] == w;
  }

  lemma RemovePast<E>(y: E, e: E, r: seq<E>, r': seq<E>, tail: seq<E>)
    requires y != e && Remove(r + tail, e) == r' + tail
    ensures Remove(([y] + r) + tail, e) == ([y] + r') + tail
  {
    assert ([y] + r) + tail == [y] + (r + tail);
    assert ([y] + r') + tail == [y] + (r' + tail);
    RemoveCons(y, r + tail, e);
  }

  /** An id no older value has changes nothing when it joins the gone ones. */
  lemma {:induction false} SurvivorsAbsent<E(!new), K(!new)>(h: Hooks<E, K>, older: seq<E>, gone: set<K>, k: K)
    requires k !in KeySet(h, older)
    ensures Survivors(h, older, gone + {k}) == Survivors(h, older, gone)
    decreases |older|
  {
    if older != [] {
      assert older[0] in older;
      assert KeySet(h, older[1..]) <= KeySet(h, older);
      SurvivorsAbsent(h, older[1..], gone, k);
    }
  }

  /** The merge loop over one list-child slot (`merged_attr` and `identifiers`). */
  method MergeList<E(==,!new), K(==,!new)>(h: Hooks<E, K>, older: seq<E>, newer: seq<E>) returns (merged: seq<E>)
    ensures merged == MergedList(h, older, newer)
  {
    var ids := IdMap(h, older);
    merged := older;
    var i := 0;
    while i < |newer|
      invariant 0 <= i <= |newer|
      invariant MergeFold(h, ListState(merged, ids), newer[i..]) == MergeFold(h, ListState(older, IdMap(h, older)), newer)
    {
      var x := newer[i];
      var k := h.entityId(x);
      assert newer[i..][0] == x && newer[i..][1..] == newer[i + 1..];
      var me := x;
      if k in ids {
        merged := Remove(merged, ids[k]);
        if h.isElement(x) {
          me := h.mergeEntities(x, ids[k]);
        }
      }
      ids := ids[k := me];
      merged := merged + [me];
      i := i + 1;
    }
  }

  // ------------------------------------------------------------ documents

  /** A child-tag descriptor of a document class: its attribute name and whether it is `multiple`. */
  datatype Slot = Slot(name: string, multiple: bool)

  /**
   * A `MergeableDocumentElement` subclass: its name and child tags.
   * Attributes and content need no declaration: every one is taken whole.
   */
  datatype Kind = Kind(name: string, children: seq<Slot>)

  /**
   * The fields of a document besides its revision and bases: attribute
   * values (an absent name is `None`), the text content (`''` when unset),
   * single children (an absent name is `None`) and child lists (an absent
   * name is the empty list).
   */
  datatype Body<E, V> = Body(attributes: map<string, V>, content: string, singles: map<string, E>,
                             lists: map<string, seq<E>>)

  function SingleIn<E, V>(b: Body<E, V>, name: string): Option<E>
  {
    if name in b.singles then Some(b.singles[name]) else None
  }

  function ListIn<E, V>(b: Body<E, V>, name: string): seq<E>
  {
    if name in b.lists then b.lists[name] else []
  }

  /** The names of the slots that are (or are not) `multiple`. */
  function SlotNames(slots: seq<Slot>, multiple: bool): set<string>
  {
    set i | 0 <= i < |slots| && slots[i].multiple == multiple :: slots[i].name
  }

  /** The single children of the merged document, over the given slot names. */
  function MergedSingles<E(==,!new), V, K(==,!new)>(h: Hooks<E, K>, names: set<string>, older: Body<E, V>,
                                                    newer: Body<E, V>): map<string, E>
  {
    map n | n in names && MergeSingle(h, SingleIn(older, n), SingleIn(newer, n)).Some?
          :: MergeSingle(h, SingleIn(older, n), SingleIn(newer, n)).value
  }

  /** The child lists of the merged document, over the given slot names. */
  function MergedLists<E(==,!new), V, K(==,!new)>(h: Hooks<E, K>, names: set<string>, older: Body<E, V>,
                                                  newer: Body<E, V>): map<string, seq<E>>
  {
    map n | n in names :: MergedList(h, ListIn(older, n), ListIn(newer, n))
  }

  /**
   * The fields of `merge(older, newer)`: attributes and content from the
   * newer document, each single slot by `MergeSingle`, each list slot by
   * `MergedList`.
   */
  function MergedBody<E(==,!new), V, K(==,!new)>(h: Hooks<E, K>, slots: seq<Slot>, older: Body<E, V>,
                                                 newer: Body<E, V>): Body<E, V>
  {
    Body(newer.attributes, newer.content,
         MergedSingles(h, SlotNames(slots, false), older, newer),
         MergedLists(h, SlotNames(slots, true), older, newer))
  }

  /** The slot names of a prefix one slot longer. */
  lemma SlotNamesStep(slots: seq<Slot>, i: nat, multiple: bool)
    requires i < |slots|
    ensures SlotNames(slots[..i + 1], multiple)
            == SlotNames(slots[..i], multiple) + (if slots[i].multiple == multiple then {slots[i].name} else {})
  {
    var p, q := slots[..i + 1], slots[..i];
    forall n | n in SlotNames(p, multiple) ensures n in SlotNames(q, multiple) || (slots[i].multiple == multiple && n == slots[i].name) {
      var j :| 0 <= j < |p| && p[j].multiple == multiple && p[j].name == n;
      if j < i {
        assert q[j] == p[j];
      }
    }
    forall n | n in SlotNames(q, multiple) ensures n in SlotNames(p, multiple) {
      var j :| 0 <= j < |q| && q[j].multiple == multiple && q[j].name == n;
      assert p[j] == q[j];
    }
    if slots[i].multiple == multiple {
      assert p[i] == slots[i];
    }
  }

  /** Adding one single-slot name adds its merged child, if any. */
  lemma SinglesStep<E(!new), V, K(!new)>(h: Hooks<E, K>, names: set<string>, n: string, older: Body<E, V>,
                                        newer: Body<E, V>)
    ensures var m := MergeSingle(h, SingleIn(older, n), SingleIn(newer, n));
            MergedSingles(h, names + {n}, older, newer)
            == if m.Some? then MergedSingles(h, names, older, newer)[n := m.value] else MergedSingles(h, names, older, newer)
  {
  }

  /** Adding one list-slot name adds its merged list. */
  lemma ListsStep<E(!new), V, K(!new)>(h: Hooks<E, K>, names: set<string>, n: string, older: Body<E, V>,
                                      newer: Body<E, V>)
    ensures MergedLists(h, names + {n}, older, newer)
            == MergedLists(h, names, older, newer)[n := MergedList(h, ListIn(older, n), ListIn(newer, n))]
  {
  }

  /** A list slot adds its merged list and leaves the single children as they were. */
  lemma ListSlotStep<E(!new), V, K(!new)>(h: Hooks<E, K>, slots: seq<Slot>, i: nat, older: Body<E, V>, newer: Body<E, V>)
    requires i < |slots| && slots[i].multiple
    ensures var n := slots[i].name;
            MergedLists(h, SlotNames(slots[..i + 1], true), older, newer)
            == MergedLists(h, SlotNames(slots[..i], true), older, newer)[n := MergedList(h, ListIn(older, n), ListIn(newer, n))]
    ensures MergedSingles(h, SlotNames(slots[..i + 1], false), older, newer)
            == MergedSingles(h, SlotNames(slots[..i], false), older, newer)
  {
    SlotNamesStep(slots, i, false);
    SlotNamesStep(slots, i, true);
    ListsStep(h, SlotNames(slots[..i], true), slots[i].name, older, newer);
  }

  /** A single slot adds its merged child, if any, and leaves the lists as they were. */
  lemma SingleSlotStep<E(!new), V, K(!new)>(h: Hooks<E, K>, slots: seq<Slot>, i: nat, older: Body<E, V>, newer: Body<E, V>)
    requires i < |slots| && !slots[i].multiple
    ensures var n := slots[i].name;
            var m := MergeSingle(h, SingleIn(older, n), SingleIn(newer, n));
            MergedSingles(h, SlotNames(slots[..i + 1], false), older, newer)
            == if m.Some? then MergedSingles(h, SlotNames(slots[..i], false), older, newer)[n := m.value]
               else MergedSingles(h, SlotNames(slots[..i], false), older, newer)
    ensures MergedLists(h, SlotNames(slots[..i + 1], true), older, newer)
            == MergedLists(h, SlotNames(slots[..i], true), older, newer)
  {
    SlotNamesStep(slots, i, false);
    SlotNamesStep(slots, i, true);
    SinglesStep(h, SlotNames(slots[..i], false), slots[i].name, older, newer);
  }

  /** The walk over the child-tag slots of `merge`. */
  method MergeBody<E(==,!new), V, K(==,!new)>(h: Hooks<E, K>, slots: seq<Slot>, older: Body<E, V>, newer: Body<E, V>)
    returns (r: Body<E, V>)
    ensures r == MergedBody(h, slots, older, newer)
  {
    var singles: map<string, E> := map[];
    var lists: map<string, seq<E>> := map[];
    var i := 0;
    while i < |slots|
      invariant 0 <= i <= |slots|
      invariant singles == MergedSingles(h, SlotNames(slots[..i], false), older, newer)
      invariant lists == MergedLists(h, SlotNames(slots[..i], true), older, newer)
    {
      var slot := slots[i];
      if slot.multiple {
        var merged := MergeList(h, ListIn(older, slot.name), ListIn(newer, slot.name));
        ListSlotStep(h, slots, i, older, newer);
        lists := lists[slot.name := merged];
      } else {
        var merged := MergeSingle(h, SingleIn(older, slot.name), SingleIn(newer, slot.name));
        SingleSlotStep(h, slots, i, older, newer);
        if merged.Some? {
          singles := singles[slot.name := merged.value];
        }
      }
      i := i + 1;
    }
    assert slots[..i] == slots;
    r := Body(newer.attributes, newer.content, singles, lists);
  }

  /**
   * With ids unique within each list, every list slot of the merged body is
   * the older values whose ids the newer list lacks followed by the newer
   * values merged with their older counterparts.
   */
  lemma MergedBodyLists<E(!new), V, K(!new)>(h: Hooks<E, K>, slots: seq<Slot>, older: Body<E, V>, newer: Body<E, V>,
                                            name: string)
    requires Slot(name, true) in slots
    requires DistinctIds(h, ListIn(older, name)) && DistinctIds(h, ListIn(newer, name))
    ensures var r := MergedBody(h, slots, older, newer);
            name in r.lists
            && r.lists[name] == Survivors(h, ListIn(older, name), KeySet(h, ListIn(newer, name)))
                                + Replacements(h, ListIn(newer, name), IdMap(h, ListIn(older, name)))
  {
    var i :| 0 <= i < |slots| && slots[i] == Slot(name, true);
    assert name in SlotNames(slots, true);
    MergedListShape(h, ListIn(older, name), ListIn(newer, name));
  }

  /** `max(now, max(values))`, or `now` when there are no values. */
  predicate IsLatest(t: int, now: int, values: set<int>)
  {
    t >= now && (forall x :: x in values ==> x <= t) && (t == now || t in values)
  }

  /** The time is determined: there is one latest time. */
  lemma LatestUnique(t: int, u: int, now: int, values: set<int>)
    requires IsLatest(t, now, values) && IsLatest(u, now, values)
    ensures t == u
  {
  }

  /** The time `revise` stamps: the current time or the latest base time, whichever is later. */
  method Latest(now: int, bases: RevisionSet) returns (t: int)
    ensures IsLatest(t, now, bases.Values)
  {
    t := now;
    var rest := bases;
    while rest != map[]
      invariant forall s :: s in rest ==> s in bases && rest[s] == bases[s]
      invariant forall s :: s in bases && s !in rest ==> bases[s] <= t
      invariant t >= now && (t == now || t in bases.Values)
      decreases |rest.Keys|
    {
      var s :| s in rest;
      if rest[s] > t {
        t := rest[s];
        assert t == bases[s] && t in bases.Values;
      }
      rest := rest - {s};
    }
    forall x | x in bases.Values ensures x <= t {
      var s :| s in bases && bases[s] == x;
    }
  }

  /** A mergeable document: its class, revision, base revisions and other fields. */
  class Document<E, V> {
    const kind: Kind
    var revision: Option<Revision>
    var bases: RevisionSet
    var body: Body<E, V>

    constructor (kind: Kind, revision: Option<Revision>, bases: RevisionSet, body: Body<E, V>)
      ensures this.kind == kind && this.revision == revision && this.bases == bases && this.body == body
    {
      this.kind := kind;
      this.revision := revision;
      this.bases := bases;
      this.body := body;
    }
  }

  /**
   * `merged_revisions`: the older bases merged with the newer bases and the
   * set of the two revisions (built with `dict`, so the newer revision wins
   * when both name one session).
   */
  function MergedBases(olderBases: RevisionSet, newerBases: RevisionSet, olderRev: Revision, newerRev: Revision)
    : (r: RevisionSet)
    ensures r.Keys == olderBases.Keys + newerBases.Keys + {olderRev.session, newerRev.session}
    ensures Covers(r, olderBases) && Covers(r, newerBases)
    ensures Contains(r, newerRev)
    ensures olderRev.session != newerRev.session || olderRev.updatedAt <= newerRev.updatedAt
            ==> Contains(r, olderRev)
  {
    var revs := FromPairs([olderRev, newerRev]);
    PairOfRevisions(olderRev, newerRev, revs);
    var sets := [Instance(newerBases), Instance(revs)];
    var r := Merge(olderBases, sets).value;
    MergeOfThree(olderBases, newerBases, revs, sets, r);
    RevisionsCovered(r, revs, olderRev, newerRev);
    r
  }

  /** The set of two revisions: both sessions, the newer time on a shared session. */
  lemma PairOfRevisions(olderRev: Revision, newerRev: Revision, revs: RevisionSet)
    requires revs == FromPairs([olderRev, newerRev])
    ensures revs.Keys == {olderRev.session, newerRev.session}
    ensures newerRev.session in revs && revs[newerRev.session] == newerRev.updatedAt
    ensures olderRev.session != newerRev.session ==> revs[olderRev.session] == olderRev.updatedAt
  {
    assert [olderRev, newerRev][..1] == [olderRev];
    assert FromPairs([olderRev]) == map[olderRev.session := olderRev.updatedAt] by {
      assert [olderRev][..0] == [];
    }
  }

  /** The merge of three sets: their keys, and each of them covered. */
  lemma MergeOfThree(a: RevisionSet, b: RevisionSet, c: RevisionSet, sets: seq<Arg<RevisionSet>>, r: RevisionSet)
    requires sets == [Instance(b), Instance(c)] && Merge(a, sets) == Ok(r)
    ensures r.Keys == a.Keys + b.Keys + c.Keys
    ensures Covers(r, a) && Covers(r, b) && Covers(r, c)
  {
    MergeOfTwoArgs(a, b, c, sets);
    UnionOfThree(a, b, c, r);
  }

  lemma MergeOfTwoArgs(a: RevisionSet, b: RevisionSet, c: RevisionSet, sets: seq<Arg<RevisionSet>>)
    requires sets == [Instance(b), Instance(c)]
    ensures Merge(a, sets) == Ok(Union(Union(b, Union(c, map[])), a))
  {
    assert !exists i :: 0 <= i < |sets| && sets[i].OtherType?;
    var vals := Values(sets);
    assert vals == [b, c];
    assert vals[1..] == [c] && [c][1..] == [];
    assert UnionAll([c]) == Union(c, map[]);
    assert UnionAll(vals) == Union(b, Union(c, map[]));
  }

  lemma UnionOfThree(a: RevisionSet, b: RevisionSet, c: RevisionSet, r: RevisionSet)
    requires r == Union(Union(b, Union(c, map[])), a)
    ensures r.Keys == a.Keys + b.Keys + c.Keys
    ensures Covers(r, a) && Covers(r, b) && Covers(r, c)
  {
    var cc := Union(c, map[]);
    var bc := Union(b, cc);
    CoversTransitive(r, bc, b);
    CoversTransitive(r, bc, cc);
    CoversTransitive(r, cc, c);
  }

  lemma RevisionsCovered(r: RevisionSet, revs: RevisionSet, olderRev: Revision, newerRev: Revision)
    requires Covers(r, revs)
    requires newerRev.session in revs && revs[newerRev.session] == newerRev.updatedAt
    requires olderRev.session != newerRev.session ==> olderRev.session in revs && revs[olderRev.session] == olderRev.updatedAt
    ensures Contains(r, newerRev)
    ensures olderRev.session != newerRev.session || olderRev.updatedAt <= newerRev.updatedAt ==> Contains(r, olderRev)
  {
    assert Contains(r, Revision(newerRev.session, revs[newerRev.session]));
    if olderRev.session != newerRev.session {
      assert Contains(r, Revision(olderRev.session, revs[olderRev.session]));
    }
  }

  /** What `pull(doc)` returns, for the session `id`. */
  ghost predicate PulledFrom<E, V>(id: string, doc: Document<E, V>, r: Document<E, V>, now: int)
    reads doc, r
  {
    if doc.revision.Some? && doc.revision.value.session == id then r == doc
    else
      && r.kind == doc.kind && r.body == doc.body && r.bases == doc.bases
      && r.revision.Some? && r.revision.value.session == id
      && (doc.revision.Some? ==> r.revision.value.updatedAt == doc.revision.value.updatedAt)
      && (doc.revision.None? ==> IsLatest(r.revision.value.updatedAt, now, doc.bases.Values))
  }

  /** What `merge` builds from the older and the newer document, for the session `id`. */
  ghost predicate MergedFrom<E(!new), V, K(!new)>(id: string, h: Hooks<E, K>, older: Document<E, V>,
                                                  newer: Document<E, V>, r: Document<E, V>, now: int)
    requires older.revision.Some? && newer.revision.Some?
    reads older, newer, r
  {
    && r.kind == older.kind
    && r.body == MergedBody(h, older.kind.children, older.body, newer.body)
    && r.bases == MergedBases(older.bases, newer.bases, older.revision.value, newer.revision.value)
    && r.revision.Some? && r.revision.value.session == id
    && IsLatest(r.revision.value.updatedAt, now, r.bases.Values)
  }

  /** A device's installation, named by its identifier. */
  class Session {
    const identifier: string

    constructor (identifier: string)
      ensures this.identifier == identifier
    {
      this.identifier := identifier;
    }

    /** `revise(document)`: stamps the document with this session and the latest time. */
    method Revise<E, V>(doc: Document<E, V>, now: int)
      modifies doc
      ensures doc.revision.Some? && doc.revision.value.session == identifier
      ensures IsLatest(doc.revision.value.updatedAt, now, doc.bases.Values)
      ensures doc.bases == old(doc.bases) && doc.body == old(doc.body)
    {
      var t := Latest(now, doc.bases);
      doc.revision := Some(Revision(identifier, t));
    }

    /**
     * `pull(document)`: the document itself when its revision is already
     * this session's, otherwise a copy whose revision names this session
     * and keeps the time (or is revised when there was none).
     */
    method Pull<E, V>(doc: Document<E, V>, now: int) returns (r: Document<E, V>)
      ensures PulledFrom(identifier, doc, r, now)
      ensures r != doc ==> fresh(r)
    {
      if doc.revision.Some? && doc.revision.value.session == identifier {
        return doc;
      }
      r := new Document(doc.kind, doc.revision, doc.bases, doc.body);
      if doc.revision.Some? {
        r.revision := Some(Revision(identifier, doc.revision.value.updatedAt));
      } else {
        Revise(r, now);
      }
    }

    /**
     * `merge(a, b, force)`.  Without `force`, a document whose bases
     * already hold the other's revision is pulled instead, and the later
     * one is taken as the newer; with `force`, `b` is the newer.
     */
    method Merge<E(==,!new), V, K(==,!new)>(h: Hooks<E, K>, a: Document<E, V>, b: Document<E, V>, force: bool, now: int)
      returns (r: Result<Document<E, V>>)
      ensures a.kind != b.kind ==> r == Err(TypeError)
      ensures a.kind == b.kind && !force ==>
        if b.revision.None? then r == Err(AttributeError)
        else if Contains(a.bases, b.revision.value) then r.Ok? && PulledFrom(identifier, a, r.value, now)
        else if a.revision.None? then r == Err(AttributeError)
        else if Contains(b.bases, a.revision.value) then r.Ok? && PulledFrom(identifier, b, r.value, now)
        else if a.revision.value.updatedAt > b.revision.value.updatedAt
        then r.Ok? && fresh(r.value) && MergedFrom(identifier, h, b, a, r.value, now)
        else r.Ok? && fresh(r.value) && MergedFrom(identifier, h, a, b, r.value, now)
      ensures a.kind == b.kind && force ==>
        if a.revision.None? || b.revision.None? then r == Err(TypeError)
        else r.Ok? && fresh(r.value) && MergedFrom(identifier, h, a, b, r.value, now)
    {
      if a.kind != b.kind {
        return Err(TypeError);
      }
      if !force {
        if b.revision.None? {
          return Err(AttributeError);
        }
        if Contains(a.bases, b.revision.value) {
          var p := Pull(a, now);
          return Ok(p);
        }
        if a.revision.None? {
          return Err(AttributeError);
        }
        if Contains(b.bases, a.revision.value) {
          var p := Pull(b, now);
          return Ok(p);
        }
      }
      if a.revision.None? || b.revision.None? {
        return Err(TypeError);
      }
      var older, newer := a, b;
      if !force && a.revision.value.updatedAt > b.revision.value.updatedAt {
        older, newer := b, a;
      }
      var body := MergeBody(h, older.kind.children, older.body, newer.body);
      var bases := MergedBases(older.bases, newer.bases, older.revision.value, newer.revision.value);
      var merged := new Document(older.kind, None, bases, body);
      Revise(merged, now);
      return Ok(merged);
    }
  }

  /** The interned sessions: `Session.interns`. */
  class SessionPool {
    var interns: map<string, Session>

    /** Each interned session is filed under its own identifier, which is a valid one. */
    ghost predicate Valid()
      reads this
    {
      forall id :: id in interns ==> interns[id].identifier == id && ValidIdentifier(id)
    }

    constructor ()
      ensures Valid() && interns == map[]
    {
      interns := map[];
    }

    /**
     * `Session(identifier)`: a `TypeError` for a value that is neither a
     * string nor `None`, a `ValueError` for an identifier outside the
     * pattern; otherwise the session interned for it, made on first use.
     */
    method New(identifier: Value, node: nat) returns (r: Result<Session>)
      requires Valid()
      modifies this
      ensures Valid()
      ensures !(identifier.PyNone? || identifier.PyStr?) ==> r == Err(TypeError) && interns == old(interns)
      ensures identifier.PyNone? || identifier.PyStr? ==>
        var id := RequestedIdentifier(identifier, node);
        && (!ValidIdentifier(id) ==> r == Err(ValueError) && interns == old(interns))
        && (ValidIdentifier(id) ==>
              && r.Ok? && r.value.identifier == id && id in interns && interns[id] == r.value
              && (id in old(interns) ==> r.value == old(interns)[id] && interns == old(interns))
              && (id !in old(interns) ==> fresh(r.value) && interns == old(interns)[id := r.value]))
    {
      if !(identifier.PyNone? || identifier.PyStr?) {
        return Err(TypeError);
      }
      var id := RequestedIdentifier(identifier, node);
      if !ValidIdentifier(id) {
        return Err(ValueError);
      }
      if id in interns {
        return Ok(interns[id]);
      }
      var session := new Session(id);
      interns := interns[id := session];
      return Ok(session);
    }
  }

  /**
   * The identifier `Session(identifier)` asks for: the string itself, or
   * the decimal hardware address `node` when it is `None` or empty.
   */
  function RequestedIdentifier(identifier: Value, node: nat): (id: string)
    requires identifier.PyNone? || identifier.PyStr?
    ensures identifier.PyStr? && identifier.s != "" ==> id == identifier.s
    ensures !(identifier.PyStr? && identifier.s != "") ==> ValidIdentifier(id) && AllDigits(id)
  {
    if identifier.PyStr? && identifier.s != "" then identifier.s
    else
      var id := NatToString(node);
      assert forall i :: 0 <= i < |id| ==> IdentifierChar(id[i]);
      id
  }

  /** Asking twice for one identifier gives the very same session object. */
  method NewTwice(pool: SessionPool, identifier: string, node: nat) returns (first: Result<Session>, second: Result<Session>)
    requires pool.Valid()
    modifies pool
    ensures first.Ok? <==> ValidIdentifier(RequestedIdentifier(PyStr(identifier), node))
    ensures first.Ok? ==> second.Ok? && first.value == second.value
    ensures first.Err? ==> second == first && first.error == ValueError
  {
    first := pool.New(PyStr(identifier), node);
    second := pool.New(PyStr(identifier), node);
  }
}
