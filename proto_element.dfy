/** The element of the older prototype package: three plain attributes, and an
    equality that accepts only another prototype element with the same name. */
module ProtoElements {
  import opened PyText
  import Elements

  /** No prototype method reassigns an attribute after construction, so the
      element is a value. */
  datatype ProtoElement = ProtoElement(name: Option<string>, emoji: Option<string>, isFirstDiscovery: Option<bool>)

  /** The right-hand side of `element == value`: a prototype element, or anything
      else (`None` included). */
  datatype Value = Instance(element: ProtoElement) | Other

  /** `element == value`. */
  predicate Equals(e: ProtoElement, v: Value) {
    v.Instance? && v.element.name == e.name
  }

  lemma EqualsIsNameEquality(a: ProtoElement, b: ProtoElement)
    ensures Equals(a, Instance(b)) <==> a.name == b.name
  {
  }

  lemma EqualsIsEquivalence(a: ProtoElement, b: ProtoElement, c: ProtoElement)
    ensures Equals(a, Instance(a))
    ensures Equals(a, Instance(b)) <==> Equals(b, Instance(a))
    ensures Equals(a, Instance(b)) && Equals(b, Instance(c)) ==> Equals(a, Instance(c))
  {
  }

  /** No prototype element equals `None`, not even the all-None one; in the main
      package that element does. */
  lemma NeverEqualsNone(e: ProtoElement)
    ensures !Equals(e, Other)
    ensures Elements.Equals(Elements.Nothing, Elements.PyNone)
    ensures !Equals(ProtoElement(None, None, None), Other)
  {
  }

  /** `str(e)`: emoji, space and name when the emoji is a non-empty string, else the name. */
  function Str(e: ProtoElement): (s: string)
    ensures IsSuffix(StrOrNone(e.name), s)
    ensures TextTruthy(e.emoji) ==> IsPrefix(e.emoji.value + " ", s) && |s| == |e.emoji.value| + 1 + |StrOrNone(e.name)|
    ensures !TextTruthy(e.emoji) ==> s == StrOrNone(e.name)
  {
    if TextTruthy(e.emoji) then StrOrNone(e.emoji) + " " + StrOrNone(e.name) else StrOrNone(e.name)
  }

  /** `repr(e)`: the three attributes, each by its own `repr`. */
  function Repr(e: ProtoElement): (s: string)
    ensures IsPrefix(Elements.ReprHead, s) && IsSuffix(")", s)
    ensures IsSuffix(", is_first_discovery=" + BoolOrNoneRepr(e.isFirstDiscovery) + ")", s)
  {
    var flag := ", is_first_discovery=" + BoolOrNoneRepr(e.isFirstDiscovery);
    var body := StrOrNoneRepr(e.name) + ", emoji=" + StrOrNoneRepr(e.emoji) + (flag + ")");
    ConcatHasPrefix(Elements.ReprHead, body);
    ConcatHasSuffix(StrOrNoneRepr(e.name) + ", emoji=" + StrOrNoneRepr(e.emoji), flag + ")");
    ConcatHasSuffix(Elements.ReprHead, body);
    SuffixOfSuffix(flag + ")", body, Elements.ReprHead + body);
    ConcatHasSuffix(flag, ")");
    SuffixOfSuffix(")", flag + ")", Elements.ReprHead + body);
    Elements.ReprHead + body
  }

  function AsMain(e: ProtoElement): Elements.Element {
    Elements.Element(e.name, e.emoji, e.isFirstDiscovery)
  }

  /** The two packages render an element the same way; only equality differs. */
  lemma RendersLikeMainPackage(e: ProtoElement)
    ensures Str(e) == Elements.Str(AsMain(e))
    ensures Repr(e) == Elements.Repr(AsMain(e))
  {
  }

  /** As in the main package, `repr` determines the whole element. */
  lemma ReprInjective(a: ProtoElement, b: ProtoElement)
    ensures Repr(a) == Repr(b) <==> a == b
  {
    RendersLikeMainPackage(a);
    RendersLikeMainPackage(b);
    Elements.ReprInjective(AsMain(a), AsMain(b));
  }

  /** A falsy main-package element equals `None`; its prototype twin does not. */
  lemma EqualityDiffersFromMainPackage(e: ProtoElement)
    requires e.isFirstDiscovery.None?
    ensures Elements.Equals(AsMain(e), Elements.PyNone) && !Equals(e, Other)
  {
  }
}
