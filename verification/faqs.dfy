/**
  The FAQ record and the category view derived from a FAQ collection: the
  de-duplicated category list and the grouping of FAQs by category, both
  recomputed from scratch on every render.
 */
module Faqs {
  import opened Wrappers
  import opened Seqs

  /** A FAQ as served by the backend; `category` may be null. */
  datatype Faq = Faq(id: int, question: string, answer: string, category: Option<string>, createdAt: string)

  /** Fallback category for FAQs without one. */
  const General := "general"

  /** `faq.category || 'general'`: a null or empty category falls back. */
  function CategoryOf(f: Faq): (c: string)
    ensures c != ""
    ensures f.category.Some? && f.category.value != "" ==> c == f.category.value
    ensures (f.category.None? || f.category == Some("")) ==> c == General
  {
    match f.category
    case Some(c) => if c != "" then c else General
    case None => General
  }

  /** The derived category of every FAQ, in collection order. */
  function CategoryKeys(faqs: seq<Faq>): (ks: seq<string>)
    ensures |ks| == |faqs|
    ensures forall i :: 0 <= i < |faqs| ==> ks[i] == CategoryOf(faqs[i])
  {
    seq(|faqs|, i requires 0 <= i < |faqs| => CategoryOf(faqs[i]))
  }

  /** `[...new Set(faqs.map((f) => f.category || 'general'))]`. */
  function Categories(faqs: seq<Faq>): (cs: seq<string>)
    ensures NoDuplicates(cs) && |cs| <= |faqs|
  {
    Distinct(CategoryKeys(faqs))
  }

  /** Does the FAQ belong to the group keyed `c`? */
  function InCategory(c: string): Faq -> bool {
    f => CategoryOf(f) == c
  }

  /**
    The derived category list has no duplicates, names exactly the derived
    categories of the FAQs, is in first-seen order, and is empty only for an
    empty collection.
   */
  lemma CategoriesSpec(faqs: seq<Faq>)
    ensures NoDuplicates(Categories(faqs))
    ensures forall c :: c in Categories(faqs) <==> exists i :: 0 <= i < |faqs| && CategoryOf(faqs[i]) == c
    ensures |Categories(faqs)| == 0 <==> |faqs| == 0
    ensures forall i, j :: 0 <= i < j < |Categories(faqs)| ==>
              FirstIndex(CategoryKeys(faqs), Categories(faqs)[i]) < FirstIndex(CategoryKeys(faqs), Categories(faqs)[j])
  {
    var ks := CategoryKeys(faqs);
    DistinctIsFirstSeenOrder(ks);
    forall c | c in Categories(faqs)
      ensures exists i :: 0 <= i < |faqs| && CategoryOf(faqs[i]) == c
    {
      var i := FirstIndex(ks, c);
      assert CategoryOf(faqs[i]) == c;
    }
  }

  /** One section of the FAQ page: a category and its FAQs. */
  datatype Group = Group(category: string, faqs: seq<Faq>)

  function GroupKeys(gs: seq<Group>): (ks: seq<string>)
    ensures |ks| == |gs|
    ensures forall i :: 0 <= i < |gs| ==> ks[i] == gs[i].category
    decreases |gs|
  {
    if |gs| == 0 then [] else [gs[0].category] + GroupKeys(gs[1..])
  }

  /**
    One step of the `reduce` building `groupedFaqs`: the FAQ is pushed onto
    the group of its category, and a group is opened at the end when the
    category is new. Groups are kept in key-insertion order.
   */
  function Push(gs: seq<Group>, f: Faq): (r: seq<Group>)
    ensures |r| == |gs| || |r| == |gs| + 1
    ensures |r| > 0
    decreases |gs|
  {
    if |gs| == 0 then [Group(CategoryOf(f), [f])]
    else if gs[0].category == CategoryOf(f) then [gs[0].(faqs := gs[0].faqs + [f])] + gs[1..]
    else [gs[0]] + Push(gs[1..], f)
  }

  /** `faqs.reduce(push, {})`, scanning left to right. */
  function Grouped(faqs: seq<Faq>): (gs: seq<Group>)
    ensures |gs| <= |faqs|
    ensures |gs| == 0 <==> |faqs| == 0
    decreases |faqs|
  {
    if |faqs| == 0 then [] else Push(Grouped(faqs[..|faqs| - 1]), faqs[|faqs| - 1])
  }

  /** Pushing keeps the keys, adding the FAQ's category at the end when it is new. */
  lemma {:induction false} PushKeys(gs: seq<Group>, f: Faq)
    ensures GroupKeys(Push(gs, f)) ==
      if CategoryOf(f) in GroupKeys(gs) then GroupKeys(gs) else GroupKeys(gs) + [CategoryOf(f)]
    decreases |gs|
  {
    var c := CategoryOf(f);
    if |gs| > 0 {
      var rest := gs[1..];
      assert GroupKeys(gs) == [gs[0].category] + GroupKeys(rest);
      if gs[0].category == c {
        assert Push(gs, f) == [gs[0].(faqs := gs[0].faqs + [f])] + rest;
        assert GroupKeys(Push(gs, f)) == GroupKeys(gs);
      } else {
        PushKeys(rest, f);
        assert c in GroupKeys(gs) <==> c in GroupKeys(rest);
        assert Push(gs, f) == [gs[0]] + Push(rest, f);
        assert GroupKeys(Push(gs, f)) == [gs[0].category] + GroupKeys(Push(rest, f));
      }
    }
  }

  /** On groups with distinct keys, an existing group gains the FAQ iff it is the FAQ's category. */
  lemma {:induction false} PushExisting(gs: seq<Group>, f: Faq, i: nat)
    requires NoDuplicates(GroupKeys(gs)) && i < |gs|
    ensures i < |Push(gs, f)|
    ensures Push(gs, f)[i] == gs[i].(faqs := gs[i].faqs + (if gs[i].category == CategoryOf(f) then [f] else []))
    decreases |gs|
  {
    if gs[0].category == CategoryOf(f) {
      if i > 0 {
        assert GroupKeys(gs)[0] != GroupKeys(gs)[i];
      }
    } else if i > 0 {
      assert GroupKeys(gs[1..]) == GroupKeys(gs)[1..];
      PushExisting(gs[1..], f, i - 1);
    }
  }

  /** A FAQ of a new category opens a group of its own at the end. */
  lemma {:induction false} PushNew(gs: seq<Group>, f: Faq)
    requires CategoryOf(f) !in GroupKeys(gs)
    ensures |Push(gs, f)| == |gs| + 1
    ensures Push(gs, f)[|gs|] == Group(CategoryOf(f), [f])
    decreases |gs|
  {
    if |gs| > 0 {
      assert GroupKeys(gs)[0] == gs[0].category;
      assert GroupKeys(gs[1..]) == GroupKeys(gs)[1..];
      PushNew(gs[1..], f);
    }
  }

  /** A FAQ appended to the collection adds its category at the end iff it is new. */
  lemma CategoriesSnoc(faqs: seq<Faq>)
    requires |faqs| > 0
    ensures var p, c := faqs[..|faqs| - 1], CategoryOf(faqs[|faqs| - 1]);
      Categories(faqs) == if c in Categories(p) then Categories(p) else Categories(p) + [c]
  {
    var n := |faqs| - 1;
    assert CategoryKeys(faqs)[..n] == CategoryKeys(faqs[..n]);
  }

  /** The keys of the grouping are exactly the derived category list. */
  lemma {:induction false} GroupedKeys(faqs: seq<Faq>)
    ensures GroupKeys(Grouped(faqs)) == Categories(faqs)
    decreases |faqs|
  {
    if |faqs| > 0 {
      var n := |faqs| - 1;
      var p := faqs[..n];
      GroupedKeys(p);
      CategoriesSnoc(faqs);
      assert Grouped(faqs) == Push(Grouped(p), faqs[n]);
      PushKeys(Grouped(p), faqs[n]);
    }
  }

  /** Appending FAQ `f` adds it to the end of an existing group of its category only. */
  lemma PushOntoExistingGroup(p: seq<Faq>, gs: seq<Group>, f: Faq, i: nat)
    requires NoDuplicates(GroupKeys(gs)) && i < |gs|
    requires gs[i].faqs == Filter(p, InCategory(gs[i].category))
    ensures i < |Push(gs, f)|
    ensures Push(gs, f)[i].faqs == Filter(p + [f], InCategory(Push(gs, f)[i].category))
  {
    PushExisting(gs, f, i);
    var c := gs[i].category;
    FilterAppend(p, [f], InCategory(c));
    assert Filter([f], InCategory(c)) == (if CategoryOf(f) == c then [f] else []);
  }

  /** A FAQ of a category not seen before opens a group holding just itself. */
  lemma PushOpensNewGroup(p: seq<Faq>, gs: seq<Group>, f: Faq)
    requires GroupKeys(gs) == Categories(p)
    requires CategoryOf(f) !in GroupKeys(gs)
    ensures |Push(gs, f)| == |gs| + 1
    ensures Push(gs, f)[|gs|].faqs == Filter(p + [f], InCategory(Push(gs, f)[|gs|].category))
  {
    PushNew(gs, f);
    var k := CategoryOf(f);
    assert forall j :: 0 <= j < |p| ==> CategoryKeys(p)[j] in Categories(p);
    FilterKeepsNone(p, InCategory(k));
    FilterAppend(p, [f], InCategory(k));
  }

  /** Each group holds exactly the FAQs of `faqs` of its category, in order. */
  ghost predicate GroupsByFilter(faqs: seq<Faq>, gs: seq<Group>) {
    forall i :: 0 <= i < |gs| ==> gs[i].faqs == Filter(faqs, InCategory(gs[i].category))
  }

  /** The grouping grows only when the FAQ's category has no group yet. */
  lemma PushGrowsOnlyForNew(gs: seq<Group>, f: Faq)
    requires |Push(gs, f)| > |gs|
    ensures CategoryOf(f) !in GroupKeys(gs)
  {
    PushKeys(gs, f);
  }

  /** One group after a reduce step still equals the filter of its category. */
  lemma PushKeepsGroupAt(p: seq<Faq>, gs: seq<Group>, f: Faq, i: nat)
    requires GroupKeys(gs) == Categories(p) && GroupsByFilter(p, gs)
    requires i < |Push(gs, f)|
    ensures Push(gs, f)[i].faqs == Filter(p + [f], InCategory(Push(gs, f)[i].category))
  {
    if i < |gs| {
      assert gs[i].faqs == Filter(p, InCategory(gs[i].category));
      PushOntoExistingGroup(p, gs, f, i);
    } else {
      assert i == |gs|;
      PushGrowsOnlyForNew(gs, f);
      PushOpensNewGroup(p, gs, f);
    }
  }

  /** One reduce step keeps each group equal to the filter of its category. */
  lemma PushKeepsGroupsByFilter(p: seq<Faq>, f: Faq)
    requires GroupsByFilter(p, Grouped(p))
    ensures GroupsByFilter(p + [f], Push(Grouped(p), f))
  {
    var gs := Grouped(p);
    GroupedKeys(p);
    var r := Push(gs, f);
    forall i | 0 <= i < |r|
      ensures r[i].faqs == Filter(p + [f], InCategory(r[i].category))
    {
      PushKeepsGroupAt(p, gs, f, i);
    }
  }

  /**
    The grouping is a partition that keeps order: the group keyed `c` holds
    exactly the FAQs of derived category `c`, in their original relative
    order.
   */
  lemma {:induction false} GroupedContents(faqs: seq<Faq>)
    ensures GroupsByFilter(faqs, Grouped(faqs))
    decreases |faqs|
  {
    if |faqs| > 0 {
      var n := |faqs| - 1;
      var p := faqs[..n];
      var f := faqs[n];
      assert faqs == p + [f];
      assert Grouped(faqs) == Push(Grouped(p), f);
      GroupedContents(p);
      PushKeepsGroupsByFilter(p, f);
    }
  }

  /** Every FAQ lands in the group keyed by its derived category. */
  lemma GroupedPlacesEachFaq(faqs: seq<Faq>, f: Faq)
    requires f in faqs
    ensures exists i :: 0 <= i < |Grouped(faqs)| && Grouped(faqs)[i].category == CategoryOf(f) && f in Grouped(faqs)[i].faqs
  {
    var gs := Grouped(faqs);
    var c := CategoryOf(f);
    GroupedKeys(faqs);
    var k :| 0 <= k < |faqs| && faqs[k] == f;
    assert CategoryKeys(faqs)[k] == c;
    assert c in Categories(faqs);
    var i := FirstIndex(GroupKeys(gs), c);
    assert gs[i].category == c;
    GroupedContents(faqs);
    assert gs[i].faqs == Filter(faqs, InCategory(c));
    assert f in gs[i].faqs;
  }

  /** A FAQ appears in no group other than the one keyed by its derived category. */
  lemma GroupedPlacesEachFaqOnce(faqs: seq<Faq>, f: Faq, j: nat)
    requires j < |Grouped(faqs)| && f in Grouped(faqs)[j].faqs
    ensures f in faqs && Grouped(faqs)[j].category == CategoryOf(f)
  {
    var gs := Grouped(faqs);
    GroupedContents(faqs);
    var r := Filter(faqs, InCategory(gs[j].category));
    assert r == gs[j].faqs;
    var m :| 0 <= m < |r| && r[m] == f;
    assert InCategory(gs[j].category)(r[m]);
    assert f in multiset(r);
  }

  /**
    The members a plain object literal `{}` inherits from `Object.prototype`.
    Every one of them is truthy: a function, or the prototype object itself
    for `__proto__`.
   */
  const InheritedKeys: set<string> := {
    "constructor", "hasOwnProperty", "isPrototypeOf", "propertyIsEnumerable",
    "toLocaleString", "toString", "valueOf", "__proto__",
    "__defineGetter__", "__defineSetter__", "__lookupGetter__", "__lookupSetter__"
  }

  /**
    One step of the `reduce` exactly as written, on an accumulator that
    started as `{}`: for an inherited key `!acc[category]` is false, no
    array is created, and `acc[category].push` is not an array method, so
    the step throws (`None`). Own keys behave as in `Push`.
   */
  function PushAsWritten(gs: seq<Group>, f: Faq): (r: Option<seq<Group>>)
    ensures r.None? <==> CategoryOf(f) in InheritedKeys
    ensures r.Some? ==> r.value == Push(gs, f)
  {
    if CategoryOf(f) in InheritedKeys then None else Some(Push(gs, f))
  }

  /** Some FAQ of the collection has an inherited key as its category. */
  ghost predicate HasInheritedCategory(faqs: seq<Faq>) {
    exists i :: 0 <= i < |faqs| && CategoryOf(faqs[i]) in InheritedKeys
  }

  /** A collection has an inherited category iff its prefix or its last FAQ has. */
  lemma InheritedSnoc(faqs: seq<Faq>)
    requires |faqs| > 0
    ensures var n := |faqs| - 1;
      HasInheritedCategory(faqs) <==> HasInheritedCategory(faqs[..n]) || CategoryOf(faqs[n]) in InheritedKeys
  {
  }

  /**
    `faqs.reduce(push, {})` as written: it throws (and the FAQ view fails to
    render) exactly when some FAQ's derived category is an inherited key,
    and otherwise yields the grouping `Grouped`.
   */
  function GroupedAsWritten(faqs: seq<Faq>): (r: Option<seq<Group>>)
    ensures r.None? <==> HasInheritedCategory(faqs)
    ensures r.Some? ==> r.value == Grouped(faqs)
    decreases |faqs|
  {
    if |faqs| == 0 then Some([])
    else
      var n := |faqs| - 1;
      var p := faqs[..n];
      InheritedSnoc(faqs);
      assert Grouped(faqs) == Push(Grouped(p), faqs[n]);
      match GroupedAsWritten(p)
      case None => None
      case Some(gs) => PushAsWritten(gs, faqs[n])
  }

  /**
    A FAQ whose category is "constructor" (a name either form accepts as a
    new category) is listed among the categories, yet grouping it as written
    throws; the intended grouping gives it a group of its own.
   */
  lemma ConstructorCategoryThrows()
    ensures var faqs := [Faq(1, "q", "a", Some("constructor"), "t")];
      && Categories(faqs) == ["constructor"]
      && GroupedAsWritten(faqs) == None
      && Grouped(faqs) == [Group("constructor", faqs)]
  {
  }

  /** The category list handed to the add form: never empty. */
  function FormCategories(faqs: seq<Faq>): (cs: seq<string>)
    ensures |cs| > 0
    ensures |faqs| > 0 ==> cs == Categories(faqs)
    ensures |faqs| == 0 ==> cs == [General]
  {
    CategoriesSpec(faqs);
    if |Categories(faqs)| > 0 then Categories(faqs) else [General]
  }
}
