/** The conversions of kernel/element.hpp between lists of elements and attributes and lists of
    values, with their grouping of adjacent siblings of one name. */
module Elements {
  import opened Values

  const ATTRIBUTE := Symbol("attribute")
  const ELEMENT := Symbol("element")

  function Car(l: List): Value { if l.Null? then Nil else l.car }

  function Cdr(l: List): List { if l.Null? then Null else l.cdr }

  predicate IsTagged(v: Value, tag: Value) { v.Lst? && v.items.Cons? && Same(v.items.car, tag) }

  /** The conversion of a name to a string. */
  function TextOf(v: Value): string {
    match v
    case Symbol(s) => s
    case Str(s) => s
    case Boolean(b) => if b then "true" else "false"
    case _ => ""
  }

  function ElementName(l: List): Value { Car(Cdr(l)) }

  function ElementChildren(l: List): List { Cdr(Cdr(l)) }

  function ElementValue(l: List): Value { Car(Reverse(l)) }

  lemma {:induction false} LastIsSmaller(l: List)
    requires l.Cons?
    ensures SizeOf(Last(l)) < SizeOfList(l)
  {
    if l.cdr.Cons? { LastIsSmaller(l.cdr); }
  }

  lemma ValueIsLast(l: List)
    ensures l.Cons? ==> ElementValue(l) == Last(l) && SizeOf(ElementValue(l)) < SizeOfList(l)
    ensures l.Null? ==> ElementValue(l) == Nil
  {
    if l.Cons? {
      ReverseOntoCar(Null, l);
      LastIsSmaller(l);
    }
  }

  predicate ElementHasValue(l: List) {
    var v := ElementValue(l);
    !v.Symbol? && !IsAssoc(v)
  }

  /** A list that is no name and value: empty, or not headed by a symbol. */
  predicate IsPlainList(v: Value) { v.Lst? && (v.items.Null? || !v.items.car.Symbol?) }

  function ElementToValue(t: Value): Value
    decreases SizeOf(t)
  {
    if IsTagged(t, ATTRIBUTE) then
      Pair(Symbol("@" + TextOf(ElementName(t.items))), Car(ElementChildren(t.items)))
    else if IsTagged(t, ELEMENT) then
      ValueIsLast(t.items);
      if ElementHasValue(t.items) then
        var v := ElementValue(t.items);
        if !IsPlainList(v) then Pair(ElementName(t.items), v)
        else Pair(ElementName(t.items), Lst(ElementsToValues(AsList(v))))
      else Lst(Cons(ElementName(t.items), ElementsToValues(ElementChildren(t.items))))
    else if !t.Lst? then t
    else Lst(ElementsToValues(t.items))
  }

  /** What a value contributes to a group of its name: its single value, or all it has. */
  function GroupedBody(items: List): Value { if Car(Cdr(items)).Lst? then Lst(Cdr(items)) else Car(Cdr(items)) }

  function GroupValues(v: Value, l: List): List
    decreases l
  {
    if l.Null? || !IsAssoc(v) || !IsAssoc(l.car) then Cons(v, l)
    else
      var name, first := v.items.car, l.car.items;
      if !Same(first.car, name) then Cons(v, l)
      else
        var second := Car(Cdr(first));
        if !IsPlainList(second) then
          GroupValues(Pair(name, Pair(GroupedBody(v.items), GroupedBody(first))), l.cdr)
        else if Cdr(v.items).Null? then GroupValues(Pair(name, second), l.cdr)
        else GroupValues(Pair(name, Lst(Cons(GroupedBody(v.items), second.items))), l.cdr)
  }

  function ElementsToValues(e: List): List
    decreases SizeOfList(e)
  {
    if e.Null? then e else GroupValues(ElementToValue(e.car), ElementsToValues(e.cdr))
  }

  predicate StartsWithAt(s: string) { s != [] && s[0] == '@' }

  function ValueToElement(t: Value): Value
    decreases t
  {
    if IsAssoc(t) then
      var name, rest := t.items.car, t.items.cdr;
      var v := if rest.Null? then Nil else rest.car;
      if !v.Lst? then
        if StartsWithAt(name.str) then Lst(Cons(ATTRIBUTE, Cons(Symbol(name.str[1..]), Cons(v, Null))))
        else Lst(Cons(ELEMENT, Cons(name, Cons(v, Null))))
      else if IsPlainList(v) then Lst(Cons(ELEMENT, Cons(name, Cons(Lst(ValuesToElements(v.items)), Null))))
      else Lst(Cons(ELEMENT, Cons(name, ValuesToElements(rest))))
    else if !t.Lst? then t
    else Lst(ValuesToElements(t.items))
  }

  function ValuesToElements(l: List): List
    decreases l
  {
    if l.Null? then l else Cons(ValueToElement(l.car), ValuesToElements(l.cdr))
  }

  // --- Canonical data -----------------------------------------------------------------------

  predicate IsAtom(v: Value) { !v.Lst? && !v.Symbol? }

  /** (attribute name atom), or (element name ...) with a name that is no attribute's. */
  predicate IsNode(v: Value) { v.Lst? && (IsAttribute(v.items) || IsElement(v.items)) }

  predicate IsAttribute(l: List) {
    && l.Cons? && l.car == ATTRIBUTE && l.cdr.Cons? && l.cdr.car.Symbol?
    && l.cdr.cdr.Cons? && !l.cdr.cdr.car.Lst? && l.cdr.cdr.cdr.Null?
  }

  predicate IsElement(l: List) {
    l.Cons? && l.car == ELEMENT && l.cdr.Cons? && l.cdr.car.Symbol? && !StartsWithAt(l.cdr.car.str)
  }

  function NodeName(v: Value): string
    requires IsNode(v)
  {
    if IsAttribute(v.items) then "@" + v.items.cdr.car.str else v.items.cdr.car.str
  }

  predicate AllNodes(l: List) { l.Null? || (IsNode(l.car) && AllNodes(l.cdr)) }

  /** An element's content: one atom, one plain list, or one or more nodes. */
  predicate CanonicalBody(body: List)
    decreases body, 2
  {
    && body.Cons?
    && (if body.cdr.Null? && !IsNode(body.car)
        then IsAtom(body.car) || (IsPlainList(body.car) && CanonicalList(body.car.items))
        else AllNodes(body) && CanonicalList(body))
  }

  predicate CanonicalItem(v: Value)
    decreases v, 0
  {
    if IsNode(v) then IsAttribute(v.items) || CanonicalBody(v.items.cdr.cdr)
    else IsAtom(v) || (IsUntaggedList(v) && CanonicalList(v.items))
  }

  /** A string equals a symbol with its characters, so a list headed by the string "element" is
      taken for an element. */
  predicate IsUntaggedList(v: Value) { IsPlainList(v) && !IsTagged(v, ATTRIBUTE) && !IsTagged(v, ELEMENT) }

  /** Canonical items, no two adjacent nodes having one name. */
  predicate CanonicalList(l: List)
    decreases l, 1
  {
    l.Null? || (CanonicalItem(l.car) && CanonicalList(l.cdr) && !SameNameNext(l))
  }

  predicate SameNameNext(l: List)
    requires l.Cons?
  {
    l.cdr.Cons? && IsNode(l.car) && IsNode(l.cdr.car) && NodeName(l.car) == NodeName(l.cdr.car)
  }

  // --- From elements to values and back -----------------------------------------------------

  /** What the conversion of an item looks like from outside. */
  predicate ConvertsInto(v: Value, w: Value) {
    if IsNode(v) then IsAssoc(w) && w.items.car == Symbol(NodeName(v))
    else !w.Symbol? && !IsAssoc(w) && (w.Lst? <==> v.Lst?)
  }

  lemma {:induction false} LastNode(l: List)
    requires l.Cons? && AllNodes(l)
    ensures IsNode(Last(l))
  {
    if l.cdr.Cons? { LastNode(l.cdr); }
  }

  lemma {:induction false} ItemRoundTrip(v: Value)
    requires CanonicalItem(v)
    ensures ConvertsInto(v, ElementToValue(v)) && ValueToElement(ElementToValue(v)) == v
    decreases v, 1
  {
    if IsNode(v) {
      if IsElement(v.items) { ElementRoundTrip(v); }
    } else if v.Lst? {
      ListRoundTrip(v.items);
    }
  }

  lemma {:induction false} ElementRoundTrip(v: Value)
    requires v.Lst? && IsElement(v.items) && CanonicalBody(v.items.cdr.cdr)
    ensures ConvertsInto(v, ElementToValue(v)) && ValueToElement(ElementToValue(v)) == v
    decreases v, 0
  {
    var name, body := v.items.cdr.car, v.items.cdr.cdr;
    ValueIsLast(v.items);
    assert Last(v.items) == Last(body);
    assert !IsTagged(v, ATTRIBUTE);
    if body.cdr.Null? && !IsNode(body.car) {
      if body.car.Lst? { ListRoundTrip(body.car.items); }
    } else {
      LastNode(body);
      ListRoundTrip(body);
      assert IsNode(body.car);
    }
  }

  /** Canonical elements become values one by one, and come back. */
  lemma {:induction false} ListRoundTrip(l: List)
    requires CanonicalList(l)
    ensures ValuesToElements(ElementsToValues(l)) == l
    ensures l.Cons? ==> ElementsToValues(l) == Cons(ElementToValue(l.car), ElementsToValues(l.cdr))
    ensures l.Cons? ==> ConvertsInto(l.car, ElementToValue(l.car))
    decreases l, 1
  {
    if l.Cons? {
      ItemRoundTrip(l.car);
      ListRoundTrip(l.cdr);
      if l.cdr.Cons? { assert ConvertsInto(l.cdr.car, ElementToValue(l.cdr.car)); }
    }
  }

  /** ("element" "element"), the one misread list that still comes back. */
  const TWICE := Pair(Str("element"), Str("element"))

  lemma {:induction false} LongerThanTail(a: Value, l: List)
    ensures Cons(a, l) != l
  {
    assert Length(Cons(a, l)) == 1 + Length(l);
  }

  /** A list of canonical items headed by a string comes back exactly when the string is no tag:
      one headed by "element" or "attribute" is taken for an element or an attribute. */
  lemma {:induction false} StringTagIsMisreadIff(v: Value)
    requires IsPlainList(v) && CanonicalList(v.items)
    ensures ValueToElement(ElementToValue(v)) == v <==> IsUntaggedList(v) || v == TWICE
  {
    ListRoundTrip(v.items);
    if IsTagged(v, ATTRIBUTE) {
      AttributeIsMisread(v);
    } else if IsTagged(v, ELEMENT) {
      ElementIsMisread(v);
    }
  }

  lemma {:induction false} AttributeIsMisread(v: Value)
    requires IsPlainList(v) && IsTagged(v, ATTRIBUTE)
    ensures ValueToElement(ElementToValue(v)) != v && v != TWICE
  {
    var w := ElementToValue(v);
    assert w.items.car.str[0] == '@';
  }

  lemma {:induction false} ElementIsMisread(v: Value)
    requires IsPlainList(v) && CanonicalList(v.items) && IsTagged(v, ELEMENT) && !IsTagged(v, ATTRIBUTE)
    ensures ValueToElement(ElementToValue(v)) == v <==> v == TWICE
  {
    var rest := v.items.cdr;
    ValueIsLast(v.items);
    assert v.items.car == Str("element");
    if rest.Null? {
      assert ElementToValue(v) == Pair(Nil, v.items.car);
    } else {
      assert CanonicalList(rest) && CanonicalItem(rest.car);
      var value := Last(rest);
      if !ElementHasValue(v.items) {
        ListRoundTrip(rest.cdr);
        LongerThanTail(rest.car, rest.cdr);
        assert ValueToElement(ElementToValue(v)) == Lst(Cons(ValueToElement(rest.car), rest.cdr));
      } else {
        var body := if IsPlainList(value) then Lst(ElementsToValues(value.items)) else value;
        assert ElementToValue(v) == Pair(rest.car, body);
        assert ValuesToElements(MkList(body)) == MkList(ValueToElement(body));
        assert ValueToElement(Pair(rest.car, body)) == Pair(ValueToElement(rest.car), ValueToElement(body));
        assert ValueToElement(rest.car) == Str("element") <==> rest.car == Str("element");
      }
    }
  }

  lemma StringTagIsMisread()
    ensures ValueToElement(ElementToValue(Pair(Str("element"), Num(1.0)))) == Pair(Num(1.0), Num(1.0))
  {
    var one := Num(1.0);
    var v := Pair(Str("element"), one);
    ValueIsLast(v.items);
    assert ElementToValue(v) == Pair(one, one);
  }

  // --- From values to elements and back -----------------------------------------------------

  predicate AllAssoc(l: List) { l.Null? || (IsAssoc(l.car) && AllAssoc(l.cdr)) }

  /** ("@name" x), (name atom), (name (values)) or (name pair ...); an atom; or a plain list. */
  predicate CanonicalValue(w: Value)
    decreases w, 0
  {
    if IsAssoc(w) then CanonicalPair(w.items.car.str, w.items.cdr)
    else IsAtom(w) || (IsUntaggedList(w) && CanonicalValues(w.items))
  }

  predicate CanonicalPair(name: string, rest: List)
    decreases rest, 2
  {
    && rest.Cons?
    && (if StartsWithAt(name) then !rest.car.Lst? && rest.cdr.Null?
        else if IsAssoc(rest.car) then AllAssoc(rest) && CanonicalValues(rest)
        else rest.cdr.Null? && (IsAtom(rest.car) || (rest.car.Lst? && CanonicalValues(rest.car.items))))
  }

  /** Canonical values, no two adjacent pairs having one name. */
  predicate CanonicalValues(l: List)
    decreases l, 1
  {
    l.Null? || (CanonicalValue(l.car) && CanonicalValues(l.cdr) && !(l.cdr.Cons? && SameHead(l.car, l.cdr.car)))
  }

  predicate SameHead(v: Value, w: Value) { IsAssoc(v) && IsAssoc(w) && v.items.car.str == w.items.car.str }

  lemma {:induction false} ItemBecomesCanonical(v: Value)
    requires CanonicalItem(v)
    ensures CanonicalValue(ElementToValue(v))
    decreases v, 1
  {
    ItemRoundTrip(v);
    if IsNode(v) {
      if IsElement(v.items) { ElementBecomesCanonical(v); }
    } else if v.Lst? {
      ListRoundTrip(v.items);
      ListBecomesCanonical(v.items);
    }
  }

  lemma {:induction false} ElementBecomesCanonical(v: Value)
    requires v.Lst? && IsElement(v.items) && CanonicalBody(v.items.cdr.cdr)
    ensures CanonicalValue(ElementToValue(v))
    decreases v, 0
  {
    var name, body := v.items.cdr.car, v.items.cdr.cdr;
    ValueIsLast(v.items);
    assert Last(v.items) == Last(body);
    assert !IsTagged(v, ATTRIBUTE);
    if body.cdr.Null? && !IsNode(body.car) {
      if body.car.Lst? {
        ListRoundTrip(body.car.items);
        ListBecomesCanonical(body.car.items);
      }
    } else {
      LastNode(body);
      ListRoundTrip(body);
      ListBecomesCanonical(body);
      assert IsNode(body.car);
    }
  }

  /** Canonical elements become canonical values. */
  lemma {:induction false} ListBecomesCanonical(l: List)
    requires CanonicalList(l)
    ensures CanonicalValues(ElementsToValues(l))
    ensures AllNodes(l) ==> AllAssoc(ElementsToValues(l))
    decreases l, 1
  {
    ListRoundTrip(l);
    if l.Cons? {
      ItemBecomesCanonical(l.car);
      ListBecomesCanonical(l.cdr);
      ListRoundTrip(l.cdr);
    }
  }

  /** What the conversion of a value looks like from outside. */
  predicate Mirrors(w: Value, v: Value) {
    if IsAssoc(w) then IsNode(v) && NodeName(v) == w.items.car.str
    else !v.Symbol? && !IsAssoc(v) && (v.Lst? <==> w.Lst?)
  }

  lemma {:induction false} ValueRoundTrip(w: Value)
    requires CanonicalValue(w)
    ensures CanonicalItem(ValueToElement(w)) && Mirrors(w, ValueToElement(w))
    ensures ElementToValue(ValueToElement(w)) == w
    decreases w, 1
  {
    if IsAssoc(w) {
      PairRoundTrip(w);
    } else if w.Lst? {
      ValuesRoundTrip(w.items);
    }
  }

  lemma {:induction false} PairRoundTrip(w: Value)
    requires IsAssoc(w) && CanonicalPair(w.items.car.str, w.items.cdr)
    ensures CanonicalItem(ValueToElement(w)) && Mirrors(w, ValueToElement(w))
    ensures ElementToValue(ValueToElement(w)) == w
    decreases w, 0
  {
    var name, rest := w.items.car, w.items.cdr;
    var v := ValueToElement(w);
    if !StartsWithAt(name.str) {
      if IsAssoc(rest.car) {
        ValuesRoundTrip(rest);
        assert v == Lst(Cons(ELEMENT, Cons(name, ValuesToElements(rest))));
        assert IsElement(v.items);
        assert IsNode(v.items.cdr.cdr.car);
        LastNode(v.items.cdr.cdr);
      } else if rest.car.Lst? {
        ValuesRoundTrip(rest.car.items);
      }
      ValueIsLast(v.items);
      assert Last(v.items) == Last(v.items.cdr.cdr);
      assert !IsTagged(v, ATTRIBUTE);
    } else {
      assert "@" + name.str[1..] == name.str;
    }
  }

  /** Canonical values become canonical elements, and come back: with the other round trip, the
      two conversions are a bijection between canonical elements and canonical values. */
  lemma {:induction false} ValuesRoundTrip(l: List)
    requires CanonicalValues(l)
    ensures CanonicalList(ValuesToElements(l))
    ensures ElementsToValues(ValuesToElements(l)) == l
    ensures AllAssoc(l) ==> AllNodes(ValuesToElements(l))
    ensures l.Cons? ==> Mirrors(l.car, ValueToElement(l.car))
    decreases l, 1
  {
    if l.Cons? {
      ValueRoundTrip(l.car);
      ValuesRoundTrip(l.cdr);
      ListRoundTrip(ValuesToElements(l));
    }
  }

  // --- Runs of elements of one name ---------------------------------------------------------

  function Element(name: string, body: List): Value { Lst(Cons(ELEMENT, Cons(Symbol(name), body))) }

  /** Elements of one name, then the rest. */
  function Run(name: string, bodies: seq<List>, rest: List): List {
    if bodies == [] then rest else Cons(Element(name, bodies[0]), Run(name, bodies[1..], rest))
  }

  /** One atom, or canonical child nodes. */
  predicate Groupable(body: List) {
    body.Cons? && (if body.cdr.Null? && !IsNode(body.car) then IsAtom(body.car)
                   else AllNodes(body) && CanonicalList(body))
  }

  /** What a body is as one item of a list. */
  function BodyItem(body: List): Value
    requires body.Cons?
  {
    if IsNode(body.car) then Lst(body) else body.car
  }

  function BodyItems(bodies: seq<List>): List
    requires forall b | b in bodies :: Groupable(b)
  {
    if bodies == [] then Null
    else
      assert Groupable(bodies[0]);
      Cons(BodyItem(bodies[0]), BodyItems(bodies[1..]))
  }

  predicate HeadedBy(name: string, l: List) { l.Cons? && IsAssoc(l.car) && l.car.items.car.str == name }

  /** A groupable element converts to its name with its body's value. */
  lemma {:induction false} GroupableElement(name: string, body: List)
    requires Groupable(body)
    ensures var w, x := ElementToValue(Element(name, body)), ElementToValue(BodyItem(body));
            && IsAssoc(w) && w.items.car == Symbol(name) && w.items.cdr.Cons?
            && !IsPlainList(w.items.cdr.car) && GroupedBody(w.items) == x && !x.Symbol? && !IsAssoc(x)
  {
    var v := Element(name, body);
    ValueIsLast(v.items);
    assert Last(v.items) == Last(body);
    if IsNode(body.car) {
      LastNode(body);
      ListRoundTrip(body);
    }
  }

  lemma {:induction false} ItemsOfBodies(bodies: seq<List>)
    requires forall b | b in bodies :: Groupable(b)
    ensures CanonicalList(BodyItems(bodies))
    ensures bodies != [] ==> !BodyItems(bodies).car.Symbol? && !IsNode(BodyItems(bodies).car)
  {
    if bodies != [] {
      assert Groupable(bodies[0]);
      assert CanonicalItem(BodyItem(bodies[0]));
      ItemsOfBodies(bodies[1..]);
    }
  }

  lemma {:induction false} GroupTwo(v: Value, w: Value, name: string, r: List)
    requires HeadedBy(name, MkList(v)) && HeadedBy(name, MkList(w)) && !HeadedBy(name, r)
    requires w.items.cdr.Cons? && !IsPlainList(w.items.cdr.car)
    requires !GroupedBody(v.items).Symbol?
    ensures GroupValues(v, Cons(w, r)) == Cons(Pair(Symbol(name), Pair(GroupedBody(v.items), GroupedBody(w.items))), r)
  {
    var g := Pair(Symbol(name), Pair(GroupedBody(v.items), GroupedBody(w.items)));
    assert GroupValues(v, Cons(w, r)) == GroupValues(g, r);
  }

  lemma {:induction false} GroupOnto(v: Value, xs: List, name: string, r: List)
    requires HeadedBy(name, MkList(v)) && v.items.cdr.Cons? && !HeadedBy(name, r)
    requires IsPlainList(Lst(xs))
    ensures GroupValues(v, Cons(Pair(Symbol(name), Lst(xs)), r))
         == Cons(Pair(Symbol(name), Lst(Cons(GroupedBody(v.items), xs))), r)
  {
    var g := Pair(Symbol(name), Lst(Cons(GroupedBody(v.items), xs)));
    assert GroupValues(v, Cons(Pair(Symbol(name), Lst(xs)), r)) == GroupValues(g, r);
  }

  predicate IsListBody(body: List) { body.Cons? && !IsNode(body.car) && body.car.Lst? }

  /** What a body is in a group: its atom, or the list of its values, in which a list is one value. */
  function BodyValue(body: List): Value
    requires CanonicalBody(body)
  {
    if IsNode(body.car) then Lst(ElementsToValues(body))
    else if body.car.Lst? then Lst(MkList(Lst(ElementsToValues(body.car.items))))
    else body.car
  }

  /** The bodies' values in order; but the items of a last list follow one by one. */
  function GroupItems(bodies: seq<List>): List
    requires bodies != [] && forall b | b in bodies :: CanonicalBody(b)
  {
    assert CanonicalBody(bodies[0]);
    if |bodies| > 1 then Cons(BodyValue(bodies[0]), GroupItems(bodies[1..]))
    else if IsListBody(bodies[0]) then ElementsToValues(bodies[0].car.items)
    else MkList(BodyValue(bodies[0]))
  }

  lemma {:induction false} CanonicalElement(name: string, body: List)
    requires CanonicalBody(body)
    ensures var w := ElementToValue(Element(name, body));
            && HeadedBy(name, MkList(w)) && w.items.car == Symbol(name) && w.items.cdr.Cons?
            && GroupedBody(w.items) == BodyValue(body) && !BodyValue(body).Symbol?
            && (if IsListBody(body)
                then w == Pair(Symbol(name), Lst(GroupItems([body]))) && IsPlainList(Lst(GroupItems([body])))
                else !IsPlainList(w.items.cdr.car))
  {
    var v := Element(name, body);
    ValueIsLast(v.items);
    assert Last(v.items) == Last(body);
    if IsNode(body.car) {
      LastNode(body);
      ListRoundTrip(body);
    } else if body.car.Lst? {
      ListRoundTrip(body.car.items);
    }
  }

  /** A run of two or more canonical elements becomes one value: the name, then the bodies' values. */
  lemma {:induction false} RunBecomesOneValue(name: string, bodies: seq<List>, rest: List)
    requires |bodies| >= 2 && forall b | b in bodies :: CanonicalBody(b)
    requires !HeadedBy(name, ElementsToValues(rest))
    ensures ElementsToValues(Run(name, bodies, rest))
         == Cons(Pair(Symbol(name), Lst(GroupItems(bodies))), ElementsToValues(rest))
    decreases |bodies|
  {
    var more, values := bodies[1..], ElementsToValues(rest);
    var w := ElementToValue(Element(name, bodies[0]));
    assert CanonicalBody(bodies[0]) && CanonicalBody(more[0]);
    CanonicalElement(name, bodies[0]);
    CanonicalElement(name, more[0]);
    if |bodies| == 2 {
      assert more == [more[0]];
      assert Run(name, more, rest) == Cons(Element(name, more[0]), Run(name, more[1..], rest));
      if IsListBody(more[0]) {
        GroupOnto(w, GroupItems(more), name, values);
      } else {
        GroupTwo(w, ElementToValue(Element(name, more[0])), name, values);
      }
    } else {
      RunBecomesOneValue(name, more, rest);
      GroupOnto(w, GroupItems(more), name, values);
    }
  }

  lemma {:induction false} GroupItemsOfItems(bodies: seq<List>)
    requires bodies != [] && forall b | b in bodies :: Groupable(b)
    ensures forall b | b in bodies :: CanonicalBody(b)
    ensures GroupItems(bodies) == ElementsToValues(BodyItems(bodies))
    decreases |bodies|
  {
    assert Groupable(bodies[0]);
    GroupableElement("", bodies[0]);
    ItemsOfBodies(bodies);
    ListRoundTrip(BodyItems(bodies));
    assert BodyValue(bodies[0]) == ElementToValue(BodyItem(bodies[0]));
    if |bodies| > 1 { GroupItemsOfItems(bodies[1..]); } else { assert BodyItems(bodies[1..]) == Null; }
  }

  /** A list at the end of a run is forgotten: it may as well have been the elements of the run. */
  lemma {:induction false} RunForgetsLastList(name: string, a: Value, b: Value, rest: List)
    requires IsAtom(a) && IsAtom(b) && !HeadedBy(name, ElementsToValues(rest))
    ensures ElementsToValues(Run(name, [MkList(a), MkList(b)], rest))
         == ElementsToValues(Run(name, [MkList(a), MkList(Lst(MkList(b)))], rest))
  {
    var list := MkList(Lst(MkList(b)));
    assert CanonicalItem(b) && CanonicalList(Null);
    assert CanonicalList(MkList(b));
    assert CanonicalBody(MkList(a)) && CanonicalBody(MkList(b)) && CanonicalBody(list);
    var plain, listed := [MkList(a), MkList(b)], [MkList(a), list];
    assert plain[1..] == [MkList(b)] && listed[1..] == [list];
    RunBecomesOneValue(name, plain, rest);
    RunBecomesOneValue(name, listed, rest);
    ListRoundTrip(MkList(b));
    assert ElementsToValues(MkList(b)) == MkList(b);
    assert GroupItems([MkList(b)]) == MkList(b) == GroupItems([list]);
  }

  /** So a run converts as the one element that has the bodies as a list value, which is what
      converting it back gives. */
  lemma {:induction false} RunCollapses(name: string, bodies: seq<List>, rest: List)
    requires |bodies| >= 2 && forall b | b in bodies :: Groupable(b)
    requires !StartsWithAt(name)
    requires CanonicalList(rest) && !(rest.Cons? && IsNode(rest.car) && NodeName(rest.car) == name)
    ensures var one := Cons(Element(name, MkList(Lst(BodyItems(bodies)))), rest);
            && CanonicalList(one)
            && ElementsToValues(Run(name, bodies, rest)) == ElementsToValues(one)
            && ValuesToElements(ElementsToValues(Run(name, bodies, rest))) == one
  {
    ListRoundTrip(rest);
    GroupItemsOfItems(bodies);
    RunBecomesOneValue(name, bodies, rest);
    ItemsOfBodies(bodies);
    var items := BodyItems(bodies);
    var v := Element(name, MkList(Lst(items)));
    assert CanonicalItem(v);
    ValueIsLast(v.items);
    assert Last(v.items) == Last(v.items.cdr.cdr);
    assert !IsTagged(v, ATTRIBUTE);
    ListRoundTrip(Cons(v, rest));
  }

  // --- Every element ------------------------------------------------------------------------

  /** An element whose last item is a value converts as if it had no other item. */
  lemma {:induction false} OnlyLastValueCounts(name: string, body: List)
    requires body.Cons? && !Last(body).Symbol? && !IsAssoc(Last(body))
    ensures ElementToValue(Element(name, body)) == ElementToValue(Element(name, MkList(Last(body))))
  {
    var v, w := Element(name, body), Element(name, MkList(Last(body)));
    ValueIsLast(v.items);
    ValueIsLast(w.items);
    assert Last(v.items) == Last(body) && Last(w.items) == Last(w.items.cdr) == Last(body);
  }

  /** An element of canonical items comes back exactly when it has one of them, which is no value of an
      attribute's name, or its first and its last item are nodes. Attributes beside a text are lost. */
  lemma {:induction false} ElementComesBackIff(name: string, body: List)
    requires CanonicalList(body)
    ensures ValueToElement(ElementToValue(Element(name, body))) == Element(name, body) <==>
      && body.Cons?
      && (if body.cdr.Null? then !(StartsWithAt(name) && !body.car.Lst?) else IsNode(body.car) && IsNode(Last(body)))
  {
    var v := Element(name, body);
    ValueIsLast(v.items);
    if body.Null? {
      assert ElementToValue(v) == Lst(MkList(Symbol(name)));
    } else {
      assert Last(v.items) == Last(body);
      LastIsItem(body);
      ListRoundTrip(body);
      if IsNode(Last(body)) {
        assert ElementToValue(v) == Lst(Cons(Symbol(name), ElementsToValues(body)));
        ItemRoundTrip(body.car);
      } else {
        OnlyLastValueCounts(name, body);
        LastItemComesBack(name, Last(body));
      }
    }
  }

  lemma {:induction false} LastIsItem(l: List)
    requires l.Cons? && CanonicalList(l)
    ensures CanonicalItem(Last(l))
  {
    if l.cdr.Cons? { LastIsItem(l.cdr); }
  }

  lemma {:induction false} LastItemComesBack(name: string, item: Value)
    requires CanonicalItem(item) && !IsNode(item)
    ensures ValueToElement(ElementToValue(Element(name, MkList(item))))
         == if StartsWithAt(name) && !item.Lst? then Lst(Cons(ATTRIBUTE, Cons(Symbol(name[1..]), MkList(item))))
            else Element(name, MkList(item))
  {
    var v := Element(name, MkList(item));
    ValueIsLast(v.items);
    assert Last(v.items) == Last(v.items.cdr.cdr) == item;
    if item.Lst? { ListRoundTrip(item.items); }
  }

  /** An attribute converts to its value under its name, which may be any text or truth value. */
  lemma {:induction false} AttributeConverts(name: Value, val: Value, more: List)
    requires IsText(name) || name.Boolean?
    ensures ElementToValue(Lst(Cons(Symbol("attribute"), Cons(name, Cons(val, more)))))
         == Pair(Symbol("@" + if IsText(name) then name.str else if name.boo then "true" else "false"), val)
  {
    var l := Cons(ATTRIBUTE, Cons(name, Cons(val, more)));
    assert IsTagged(Lst(l), ATTRIBUTE);
    assert ElementName(l) == name && Car(ElementChildren(l)) == val;
  }
}
