/** The library's element value: a frozen record of an optional name, emoji and
    first-discovery flag, equal to anything element-shaped with the same name. */
module Elements {
  import opened PyText

  /** Being a datatype value, an element never changes after construction. */
  datatype Element = Element(name: Option<string>, emoji: Option<string>, isFirstDiscovery: Option<bool>)

  /** The element every failed pairing produces. */
  const Nothing: Element := Element(None, None, None)

  /** What can stand on the right of `element == other`: `None`, an object that
      satisfies the element protocol (it has the three attributes), or anything else. */
  datatype Operand = PyNone | Protocol(element: Element) | NotProtocol

  /** `bool(e)`: every attribute is set. */
  predicate Truthy(e: Element) {
    e.name.Some? && e.emoji.Some? && e.isFirstDiscovery.Some?
  }

  /** `e == other`. */
  predicate Equals(e: Element, other: Operand) {
    if !Truthy(e) && other.PyNone? then true
    else if other.Protocol? && other.element.name == e.name then true
    else false
  }

  /** Between elements, `==` compares names and nothing else. */
  lemma EqualsIsNameEquality(a: Element, b: Element)
    ensures Equals(a, Protocol(b)) <==> a.name == b.name
  {
  }

  lemma EqualsIsEquivalence(a: Element, b: Element, c: Element)
    ensures Equals(a, Protocol(a))
    ensures Equals(a, Protocol(b)) <==> Equals(b, Protocol(a))
    ensures Equals(a, Protocol(b)) && Equals(b, Protocol(c)) ==> Equals(a, Protocol(c))
  {
  }

  /** An element equals `None` exactly when it is falsy. */
  lemma EqualsNoneIffFalsy(e: Element)
    ensures Equals(e, PyNone) <==> !Truthy(e)
  {
  }

  /** The failed-pairing element is falsy and compares equal to `None`. */
  lemma NothingEqualsNone()
    ensures !Truthy(Nothing) && Equals(Nothing, PyNone)
  {
  }

  /** Emoji and flag never decide equality. */
  lemma EqualityIgnoresDecoration(a: Element, emoji: Option<string>, flag: Option<bool>)
    ensures Equals(a, Protocol(Element(a.name, emoji, flag)))
  {
  }

  /** Nothing that lacks the element attributes equals an element. */
  lemma NeverEqualsNonElement(e: Element)
    ensures !Equals(e, NotProtocol)
  {
  }

  /** A name and an emoji without a flag make a falsy element. */
  lemma MissingFlagIsFalsy(name: string, emoji: string)
    ensures !Truthy(Element(Some(name), Some(emoji), None))
    ensures Equals(Element(Some(name), Some(emoji), None), PyNone)
  {
  }

  /** `str(e)`: the emoji, a space and the name when the emoji is a non-empty
      string, otherwise the name alone (`"None"` when the name is unset). */
  function Str(e: Element): (s: string)
    ensures IsSuffix(StrOrNone(e.name), s)
    ensures TextTruthy(e.emoji) ==> IsPrefix(e.emoji.value + " ", s) && |s| == |e.emoji.value| + 1 + |StrOrNone(e.name)|
    ensures !TextTruthy(e.emoji) ==> |s| == |StrOrNone(e.name)|
  {
    if TextTruthy(e.emoji) then e.emoji.value + " " + StrOrNone(e.name) else StrOrNone(e.name)
  }

  /** Rendering ignores the flag, and an empty emoji renders as no emoji. */
  lemma StrIgnoresFlagAndEmptyEmoji(e: Element, flag: Option<bool>)
    ensures Str(Element(e.name, e.emoji, flag)) == Str(e)
    ensures Str(Element(e.name, Some(""), flag)) == Str(Element(e.name, None, e.isFirstDiscovery))
  {
    assert !TextTruthy(Some("")) && !TextTruthy(None);
    assert Str(Element(e.name, Some(""), flag)) == StrOrNone(e.name);
    assert Str(Element(e.name, None, e.isFirstDiscovery)) == StrOrNone(e.name);
  }

  const ReprHead: string := "Element(name="

  /** The text `repr` writes after `ReprHead`: each attribute's own `repr`. */
  function ReprFields(name: Option<string>, emoji: Option<string>, flag: Option<bool>): string {
    StrOrNoneRepr(name) + (", emoji=" + (StrOrNoneRepr(emoji) + (", is_first_discovery=" + BoolOrNoneRepr(flag) + ")")))
  }

  /** `repr(e)`: the constructor call with each attribute's own `repr`. */
  function Repr(e: Element): (s: string)
    ensures IsPrefix(ReprHead, s) && IsSuffix(")", s)
    ensures IsSuffix(", is_first_discovery=" + BoolOrNoneRepr(e.isFirstDiscovery) + ")", s)
  {
    var flag := ", is_first_discovery=" + BoolOrNoneRepr(e.isFirstDiscovery);
    var emoji := StrOrNoneRepr(e.emoji) + (flag + ")");
    var fields := ReprFields(e.name, e.emoji, e.isFirstDiscovery);
    assert fields == StrOrNoneRepr(e.name) + (", emoji=" + emoji);
    ConcatHasPrefix(ReprHead, fields);
    ConcatHasSuffix(StrOrNoneRepr(e.emoji), flag + ")");
    ConcatHasSuffix(", emoji=", emoji);
    SuffixOfSuffix(flag + ")", emoji, ", emoji=" + emoji);
    ConcatHasSuffix(StrOrNoneRepr(e.name), ", emoji=" + emoji);
    SuffixOfSuffix(flag + ")", ", emoji=" + emoji, fields);
    ConcatHasSuffix(ReprHead, fields);
    SuffixOfSuffix(flag + ")", fields, ReprHead + fields);
    ConcatHasSuffix(flag, ")");
    SuffixOfSuffix(")", flag + ")", ReprHead + fields);
    ReprHead + fields
  }

  /** Each attribute's `repr` can be read back from the fields text. */
  lemma ReprFieldsInjective(n: Option<string>, m: Option<string>, f: Option<bool>,
                            n': Option<string>, m': Option<string>, f': Option<bool>)
    requires ReprFields(n, m, f) == ReprFields(n', m', f')
    ensures n == n' && m == m' && f == f'
  {
    var t := ", is_first_discovery=" + BoolOrNoneRepr(f) + ")";
    var t' := ", is_first_discovery=" + BoolOrNoneRepr(f') + ")";
    StrOrNoneReprPrefixFree(n, n', ", emoji=" + (StrOrNoneRepr(m) + t), ", emoji=" + (StrOrNoneRepr(m') + t'));
    CancelPrefix(", emoji=", StrOrNoneRepr(m) + t, StrOrNoneRepr(m') + t');
    StrOrNoneReprPrefixFree(m, m', t, t');
    CancelSuffix(", is_first_discovery=" + BoolOrNoneRepr(f), ", is_first_discovery=" + BoolOrNoneRepr(f'), ")");
    CancelPrefix(", is_first_discovery=", BoolOrNoneRepr(f), BoolOrNoneRepr(f'));
    BoolOrNoneReprInjective(f, f');
  }

  /** `repr` determines the whole element: name, emoji and flag can all be read
      back from it, where `==` looks at the name alone. */
  lemma ReprInjective(a: Element, b: Element)
    ensures Repr(a) == Repr(b) <==> a == b
  {
    var fa := ReprFields(a.name, a.emoji, a.isFirstDiscovery);
    var fb := ReprFields(b.name, b.emoji, b.isFirstDiscovery);
    CancelPrefix(ReprHead, fa, fb);
    if fa == fb {
      ReprFieldsInjective(a.name, a.emoji, a.isFirstDiscovery, b.name, b.emoji, b.isFirstDiscovery);
    }
  }

  /** Unlike `==`, `repr` tells apart elements that differ only in their flag. */
  lemma ReprShowsFlag(e: Element, f: Option<bool>)
    requires f != e.isFirstDiscovery
    ensures Repr(Element(e.name, e.emoji, f)) != Repr(e)
  {
    var pre := StrOrNoneRepr(e.name) + ", emoji=" + StrOrNoneRepr(e.emoji);
    var fa := ", is_first_discovery=" + BoolOrNoneRepr(f);
    var fb := ", is_first_discovery=" + BoolOrNoneRepr(e.isFirstDiscovery);
    CancelPrefix(ReprHead, pre + (fa + ")"), pre + (fb + ")"));
    CancelPrefix(pre, fa + ")", fb + ")");
    CancelSuffix(fa, fb, ")");
    CancelPrefix(", is_first_discovery=", BoolOrNoneRepr(f), BoolOrNoneRepr(e.isFirstDiscovery));
    BoolOrNoneReprInjective(f, e.isFirstDiscovery);
  }
}
