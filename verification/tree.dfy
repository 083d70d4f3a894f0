/** Selecting, substituting and deleting assocs in trees of assocs, as in kernel/tree.hpp. */
module TreeAssoc {
  import opened Values

  function TreeDelAssoc(k: List, l: List): List
    decreases l
  {
    if k.Null? || l.Null? then l
    else if IsAssocList(l) && Same(l.car, k.car) && k.cdr.Null? then Null
    else
      var a := l.car;
      if !IsAssoc(a) then
        if !a.Lst? then Cons(a, TreeDelAssoc(k, l.cdr))
        else
          var da := TreeDelAssoc(k, a.items);
          if da.Null? then TreeDelAssoc(k, l.cdr) else Cons(Lst(da), TreeDelAssoc(k, l.cdr))
      else
        var Cons(name, body) := a.items;
        if Same(name, k.car) then
          if k.cdr.Null? then TreeDelAssoc(k, l.cdr)
          else Cons(Lst(Cons(name, TreeDelAssoc(k.cdr, body))), TreeDelAssoc(k, l.cdr))
        else if body.Null? then Cons(a, TreeDelAssoc(k, l.cdr))
        else if !body.car.Lst? then
          Cons(Lst(Cons(name, Cons(body.car, TreeDelAssoc(k, body.cdr)))), TreeDelAssoc(k, l.cdr))
        else
          var da := TreeDelAssoc(k, body.car.items);
          if da.Null? then Cons(Lst(Cons(name, TreeDelAssoc(k, body.cdr))), TreeDelAssoc(k, l.cdr))
          else Cons(Lst(Cons(name, Cons(Lst(da), TreeDelAssoc(k, body.cdr)))), TreeDelAssoc(k, l.cdr))
  }

  function TreeSubstAssoc(k: List, n: List, l: List): List
    decreases l
  {
    if k.Null? || l.Null? then l
    else if IsAssocList(l) && Same(l.car, k.car) && k.cdr.Null? then n
    else
      var a := l.car;
      if !IsAssoc(a) then
        if !a.Lst? then Cons(a, TreeSubstAssoc(k, n, l.cdr))
        else Cons(Lst(TreeSubstAssoc(k, n, a.items)), TreeSubstAssoc(k, n, l.cdr))
      else
        var Cons(name, body) := a.items;
        if Same(name, k.car) then
          if k.cdr.Null? then Cons(Lst(n), TreeSubstAssoc(k, n, l.cdr))
          else Cons(Lst(Cons(name, TreeSubstAssoc(k.cdr, n, body))), TreeSubstAssoc(k, n, l.cdr))
        else if body.Null? then Cons(a, TreeSubstAssoc(k, n, l.cdr))
        else if !body.car.Lst? then
          Cons(Lst(Cons(name, Cons(body.car, TreeSubstAssoc(k, n, body.cdr)))), TreeSubstAssoc(k, n, l.cdr))
        else
          Cons(Lst(Cons(name, Cons(Lst(TreeSubstAssoc(k, n, body.car.items)), TreeSubstAssoc(k, n, body.cdr)))),
               TreeSubstAssoc(k, n, l.cdr))
  }

  function TreeSelectAssoc(k: List, l: List): List
    decreases l
  {
    if k.Null? || l.Null? then Null
    else if IsAssocList(l) && Same(l.car, k.car) && k.cdr.Null? then MkList(Lst(l))
    else
      var a := l.car;
      if !IsAssoc(a) then
        if !a.Lst? then TreeSelectAssoc(k, l.cdr)
        else Append(TreeSelectAssoc(k, a.items), TreeSelectAssoc(k, l.cdr))
      else
        var Cons(name, body) := a.items;
        if Same(name, k.car) then
          if k.cdr.Null? then Cons(a, TreeSelectAssoc(k, l.cdr))
          else Append(TreeSelectAssoc(k.cdr, body), TreeSelectAssoc(k, l.cdr))
        else if body.Null? then TreeSelectAssoc(k, l.cdr)
        else if !body.car.Lst? then Append(TreeSelectAssoc(k, body.cdr), TreeSelectAssoc(k, l.cdr))
        else
          Append(Append(TreeSelectAssoc(k, body.car.items), TreeSelectAssoc(k, body.cdr)), TreeSelectAssoc(k, l.cdr))
  }

  // --- Substitution, on every S-expression --------------------------------------------------

  /** The replacement is itself an assoc with the key. */
  predicate Keyed(n: List, k: Value) { IsAssocList(n) && Same(n.car, k) }

  /** Substituting never turns a list that is no assoc into one. */
  lemma SubstKeepsHead(k: Value, n: List, l: List)
    requires Keyed(n, k) && l.Cons?
    ensures var s := TreeSubstAssoc(MkList(k), n, l);
      s.Cons? && (IsAssocList(s) <==> IsAssocList(l)) && (Keyed(s, k) <==> Keyed(l, k))
    ensures var s := TreeSubstAssoc(MkList(k), n, l);
      (l.car.Lst? <==> s.car.Lst?) && (!l.car.Lst? && !Keyed(l, k) ==> s.car == l.car)
  {}

  /** Copies for the matches of two lists are copies for the matches of both. */
  lemma {:induction false} CopiesOfBoth(v: Value, a: List, b: List, matches: List, matches': List)
    requires a == Copies(v, Length(matches)) && b == Copies(v, Length(matches'))
    ensures Append(a, b) == Copies(v, Length(Append(matches, matches')))
  {
    LengthAppend(matches, matches');
    CopiesAppend(v, Length(matches), Length(matches'));
  }

  /** Selecting the key after the substitution finds exactly the replacements, one for each match. */
  lemma {:induction false} SelectAfterSubst(k: Value, n: List, l: List)
    requires Keyed(n, k)
    ensures TreeSelectAssoc(MkList(k), TreeSubstAssoc(MkList(k), n, l))
         == Copies(Lst(n), Length(TreeSelectAssoc(MkList(k), l)))
    decreases l
  {
    var key := MkList(k);
    if l.Cons? && !Keyed(l, k) {
      var a := l.car;
      var rest, rest' := TreeSelectAssoc(key, l.cdr), TreeSelectAssoc(key, TreeSubstAssoc(key, n, l.cdr));
      SelectAfterSubst(k, n, l.cdr);
      SubstKeepsHead(k, n, l);
      if !IsAssoc(a) {
        if a.Lst? {
          SelectAfterSubst(k, n, a.items);
          if a.items.Cons? { SubstKeepsHead(k, n, a.items); }
          CopiesOfBoth(Lst(n), TreeSelectAssoc(key, TreeSubstAssoc(key, n, a.items)), rest',
                       TreeSelectAssoc(key, a.items), rest);
        }
      } else {
        var Cons(name, body) := a.items;
        if !Same(name, k) && body.Cons? {
          SelectAfterSubst(k, n, body.cdr);
          var inner, inner' := TreeSelectAssoc(key, body.cdr), TreeSelectAssoc(key, TreeSubstAssoc(key, n, body.cdr));
          if body.car.Lst? {
            var first := body.car.items;
            SelectAfterSubst(k, n, first);
            CopiesOfBoth(Lst(n), TreeSelectAssoc(key, TreeSubstAssoc(key, n, first)), inner',
                         TreeSelectAssoc(key, first), inner);
            inner := Append(TreeSelectAssoc(key, first), inner);
            inner' := Append(TreeSelectAssoc(key, TreeSubstAssoc(key, n, first)), inner');
          }
          CopiesOfBoth(Lst(n), inner', rest', inner, rest);
        }
      }
    }
  }

  lemma {:induction false} SubstIsIdempotent(k: Value, n: List, l: List)
    requires Keyed(n, k)
    ensures TreeSubstAssoc(MkList(k), n, TreeSubstAssoc(MkList(k), n, l)) == TreeSubstAssoc(MkList(k), n, l)
    decreases l
  {
    if l.Cons? && !Keyed(l, k) {
      var a := l.car;
      SubstIsIdempotent(k, n, l.cdr);
      SubstKeepsHead(k, n, l);
      if !IsAssoc(a) {
        if a.Lst? {
          SubstIsIdempotent(k, n, a.items);
          if a.items.Cons? { SubstKeepsHead(k, n, a.items); }
        }
      } else {
        var Cons(name, body) := a.items;
        if !Same(name, k) && body.Cons? {
          SubstIsIdempotent(k, n, body.cdr);
          if body.car.Lst? { SubstIsIdempotent(k, n, body.car.items); }
        }
      }
    }
  }

  /** For any path of keys: where nothing is selected, substitution changes nothing. */
  lemma {:induction false} NothingSelectedNothingSubstituted(k: List, n: List, l: List)
    requires TreeSelectAssoc(k, l) == Null
    ensures TreeSubstAssoc(k, n, l) == l
    decreases l
  {
    if k.Cons? && l.Cons? {
      var a := l.car;
      if !IsAssoc(a) {
        if a.Lst? { NothingSelectedNothingSubstituted(k, n, a.items); }
      } else {
        var Cons(name, body) := a.items;
        if Same(name, k.car) {
          if k.cdr.Cons? { NothingSelectedNothingSubstituted(k.cdr, n, body); }
        } else if body.Cons? {
          NothingSelectedNothingSubstituted(k, n, body.cdr);
          if body.car.Lst? { NothingSelectedNothingSubstituted(k, n, body.car.items); }
        }
      }
      NothingSelectedNothingSubstituted(k, n, l.cdr);
    }
  }

  predicate AllAre(l: List, v: Value) { l.Null? || (l.car == v && AllAre(l.cdr, v)) }

  lemma {:induction false} AllAreAppend(l: List, m: List, v: Value)
    ensures AllAre(Append(l, m), v) <==> AllAre(l, v) && AllAre(m, v)
  {
    if l.Cons? { AllAreAppend(l.cdr, m, v); }
  }

  /** With one key, substitution changes nothing exactly when every match is the replacement already. */
  lemma {:induction false} SubstIsIdentityIff(k: Value, n: List, l: List)
    ensures TreeSubstAssoc(MkList(k), n, l) == l <==> AllAre(TreeSelectAssoc(MkList(k), l), Lst(n))
    decreases l
  {
    var key := MkList(k);
    if l.Cons? && !(IsAssocList(l) && Same(l.car, k)) {
      var a, rest := l.car, TreeSelectAssoc(key, l.cdr);
      SubstIsIdentityIff(k, n, l.cdr);
      if !IsAssoc(a) {
        if a.Lst? {
          SubstIsIdentityIff(k, n, a.items);
          AllAreAppend(TreeSelectAssoc(key, a.items), rest, Lst(n));
        }
      } else {
        var Cons(name, body) := a.items;
        if !Same(name, k) && body.Cons? {
          SubstIsIdentityIff(k, n, body.cdr);
          var inner := TreeSelectAssoc(key, body.cdr);
          if body.car.Lst? {
            SubstIsIdentityIff(k, n, body.car.items);
            AllAreAppend(TreeSelectAssoc(key, body.car.items), inner, Lst(n));
            inner := Append(TreeSelectAssoc(key, body.car.items), inner);
          }
          AllAreAppend(inner, rest, Lst(n));
        }
      }
    }
  }

  // --- Deletion, on well-formed forests -----------------------------------------------------

  /** A node is a symbol followed by one atom that is no symbol, or by nodes. */
  predicate IsNode(v: Value): (r: bool)
    ensures r ==> IsAssoc(v)
  {
    IsAssoc(v) && (IsLeafBody(v.items.cdr) || IsForest(v.items.cdr))
  }

  predicate IsLeafBody(l: List) { l.Cons? && l.cdr.Null? && !l.car.Lst? && !l.car.Symbol? }

  predicate IsForest(l: List) { l.Null? || (IsNode(l.car) && IsForest(l.cdr)) }

  /** The forest without its subtrees named k, by plain recursion on nodes and their children. */
  function Prune(k: Value, f: List): List
    requires IsForest(f)
  {
    if f.Null? then Null
    else if Same(f.car.items.car, k) then Prune(k, f.cdr)
    else Cons(PruneNode(k, f.car), Prune(k, f.cdr))
  }

  function PruneNode(k: Value, v: Value): (r: Value)
    requires IsNode(v)
    ensures IsAssoc(r) && r.items.car == v.items.car
  {
    if IsLeafBody(v.items.cdr) then v else Lst(Cons(v.items.car, Prune(k, v.items.cdr)))
  }

  /** The maximal subtrees named k, from left to right. */
  function Maximal(k: Value, f: List): List
    requires IsForest(f)
  {
    if f.Null? then Null
    else if Same(f.car.items.car, k) then Cons(f.car, Maximal(k, f.cdr))
    else Append(MaximalIn(k, f.car), Maximal(k, f.cdr))
  }

  function MaximalIn(k: Value, v: Value): List
    requires IsNode(v)
  {
    if IsLeafBody(v.items.cdr) then Null else Maximal(k, v.items.cdr)
  }

  function NodeCount(f: List): nat
    requires IsForest(f)
  {
    if f.Null? then 0 else NodesIn(f.car) + NodeCount(f.cdr)
  }

  function NodesIn(v: Value): nat
    requires IsNode(v)
  {
    1 + if IsLeafBody(v.items.cdr) then 0 else NodeCount(v.items.cdr)
  }

  lemma {:induction false} ForestAppend(f: List, g: List)
    requires IsForest(f) && IsForest(g)
    ensures IsForest(Append(f, g)) && NodeCount(Append(f, g)) == NodeCount(f) + NodeCount(g)
  {
    if f.Cons? { ForestAppend(f.cdr, g); }
  }

  /** A leaf's body has no assoc to find: scanning it changes nothing. */
  lemma LeafBodyScan(k: Value, l: List)
    requires IsLeafBody(l)
    ensures TreeDelAssoc(MkList(k), l) == l && TreeSelectAssoc(MkList(k), l) == Null
  {}

  /** A first child is scanned as a plain list, its siblings as list elements; both agree with
      plain recursion on nodes. */
  lemma {:induction false} FirstChildScan(k: Value, v: Value)
    requires IsNode(v)
    ensures Same(v.items.car, k) ==>
      TreeDelAssoc(MkList(k), v.items) == Null && TreeSelectAssoc(MkList(k), v.items) == MkList(v)
    ensures !Same(v.items.car, k) ==>
      && TreeDelAssoc(MkList(k), v.items) == PruneNode(k, v).items
      && TreeSelectAssoc(MkList(k), v.items) == MaximalIn(k, v)
    decreases v, 0
  {
    if IsLeafBody(v.items.cdr) {
      LeafBodyScan(k, v.items.cdr);
    } else {
      DeleteAndSelectOnForests(k, v.items.cdr);
    }
  }

  /** On a well-formed forest, deletion removes exactly the maximal subtrees with the key and
      selection returns exactly those. */
  lemma {:induction false} DeleteAndSelectOnForests(k: Value, f: List)
    requires IsForest(f)
    ensures TreeDelAssoc(MkList(k), f) == Prune(k, f)
    ensures TreeSelectAssoc(MkList(k), f) == Maximal(k, f)
    decreases f, 1
  {
    if f.Cons? {
      assert IsNode(f.car);
      DeleteAndSelectOnForests(k, f.cdr);
      var Cons(name, body) := f.car.items;
      if !Same(name, k) {
        if IsLeafBody(body) {
          assert TreeDelAssoc(MkList(k), body.cdr) == Null && TreeSelectAssoc(MkList(k), body.cdr) == Null;
          assert PruneNode(k, f.car) == f.car && MaximalIn(k, f.car) == Null;
        } else {
          assert IsForest(body);
          assert PruneNode(k, f.car) == Lst(Cons(name, Prune(k, body))) && MaximalIn(k, f.car) == Maximal(k, body);
          if body.Cons? {
            var first := body.car;
            assert IsNode(first);
            FirstChildScan(k, first);
            DeleteAndSelectOnForests(k, body.cdr);
            assert Append(MkList(first), Maximal(k, body.cdr)) == Cons(first, Maximal(k, body.cdr));
            assert Prune(k, body) == if Same(first.items.car, k) then Prune(k, body.cdr)
                                     else Cons(PruneNode(k, first), Prune(k, body.cdr));
            assert Maximal(k, body) == if Same(first.items.car, k) then Cons(first, Maximal(k, body.cdr))
                                       else Append(MaximalIn(k, first), Maximal(k, body.cdr));
          }
        }
      }
    }
  }

  /** Nothing named k is left, and what is left and what was selected are well-formed forests. */
  lemma {:induction false} PruneLeavesForest(k: Value, f: List)
    requires IsForest(f)
    ensures IsForest(Prune(k, f)) && Maximal(k, Prune(k, f)) == Null
    ensures IsForest(Maximal(k, f))
    decreases f
  {
    if f.Cons? {
      assert IsNode(f.car);
      PruneLeavesForest(k, f.cdr);
      var Cons(name, body) := f.car.items;
      if !Same(name, k) && !IsLeafBody(body) {
        PruneLeavesForest(k, body);
        ForestAppend(Maximal(k, body), Maximal(k, f.cdr));
        assert !IsLeafBody(Prune(k, body));
      }
    }
  }

  lemma {:induction false} PruneNodeBalances(k: Value, v: Value)
    requires IsNode(v)
    ensures IsNode(PruneNode(k, v)) && IsForest(MaximalIn(k, v))
    ensures NodesIn(v) == NodesIn(PruneNode(k, v)) + NodeCount(MaximalIn(k, v))
    ensures PruneNode(k, v) == v <==> MaximalIn(k, v) == Null
    decreases v, 0
  {
    if !IsLeafBody(v.items.cdr) {
      PruneLeavesForest(k, v.items.cdr);
      PruneBalances(k, v.items.cdr);
      assert !IsLeafBody(Prune(k, v.items.cdr));
    }
  }

  /** No node is lost: those left and those selected add up. Nothing is removed exactly when nothing
      was selected. */
  lemma {:induction false} PruneBalances(k: Value, f: List)
    requires IsForest(f) && IsForest(Prune(k, f)) && IsForest(Maximal(k, f))
    ensures NodeCount(f) == NodeCount(Prune(k, f)) + NodeCount(Maximal(k, f))
    ensures Prune(k, f) == f <==> Maximal(k, f) == Null
    decreases f, 1
  {
    if f.Cons? {
      assert IsNode(f.car);
      PruneLeavesForest(k, f.cdr);
      PruneBalances(k, f.cdr);
      PruneNodeBalances(k, f.car);
      ForestAppend(MaximalIn(k, f.car), Maximal(k, f.cdr));
    }
  }

  /** Deleting a key from a well-formed forest: the key is gone, the node counts balance, deleting
      again changes nothing. */
  lemma DeleteOnForests(k: Value, f: List)
    requires IsForest(f)
    ensures var d, s := TreeDelAssoc(MkList(k), f), TreeSelectAssoc(MkList(k), f);
      && IsForest(d) && IsForest(s)
      && TreeSelectAssoc(MkList(k), d) == Null
      && NodeCount(f) == NodeCount(d) + NodeCount(s)
      && TreeDelAssoc(MkList(k), d) == d
      && (d == f <==> s == Null)
  {
    DeleteAndSelectOnForests(k, f);
    PruneLeavesForest(k, f);
    PruneBalances(k, f);
    DeleteAndSelectOnForests(k, Prune(k, f));
    PruneLeavesForest(k, Prune(k, f));
    PruneBalances(k, Prune(k, f));
  }

  // --- Deletion, on every S-expression ------------------------------------------------------

  /** The list without its assocs named k at any depth, nor the lists that are empty without them:
      elements are taken as they stand, so a tail of a list is never an assoc of its own. */
  function PruneAny(k: Value, l: List): List
    decreases l
  {
    if l.Null? then Null
    else
      var rest := PruneAny(k, l.cdr);
      if !l.car.Lst? then Cons(l.car, rest)
      else if Keyed(l.car.items, k) then rest
      else WithItem(PruneAny(k, l.car.items), rest)
  }

  function WithItem(inner: List, rest: List): List { if inner.Null? then rest else Cons(Lst(inner), rest) }

  /** The scan meets the key as a symbol where it takes what follows for an assoc. */
  predicate Clash(k: Value, l: List)
    decreases l, 0
  {
    && l.Cons?
    && (|| Keyed(l, k)
        || Clash(k, l.cdr)
        || (l.car.Lst? && !Keyed(l.car.items, k) && ClashInside(k, l.car.items)))
  }

  /** Inside an element: the name of an assoc and an atom after it are passed over. */
  predicate ClashInside(k: Value, items: List)
    decreases items, 1
  {
    if !IsAssocList(items) then Clash(k, items)
    else
      var body := items.cdr;
      && body.Cons?
      && (|| Clash(k, body.cdr)
          || (body.car.Lst? && !Keyed(body.car.items, k) && Clash(k, body.car.items)))
  }

  function Atoms(l: List): nat { if l.Null? then 0 else AtomsIn(l.car) + Atoms(l.cdr) }

  function AtomsIn(v: Value): nat { if v.Lst? then Atoms(v.items) else 1 }

  /** The scan keeps the same atoms, or fewer where the key clashes. */
  predicate Compares(scanned: List, pruned: List, clash: bool) {
    if clash then Atoms(scanned) < Atoms(pruned) else scanned == pruned
  }

  /** The scan of an element that is not deleted, as TreeDelAssoc does it in place. */
  function ScannedItem(k: Value, items: List): List
    decreases items, 0
  {
    if !IsAssocList(items) then TreeDelAssoc(MkList(k), items)
    else if items.cdr.Null? then items
    else
      var name, first, rest := items.car, items.cdr.car, TreeDelAssoc(MkList(k), items.cdr.cdr);
      if !first.Lst? then Cons(name, Cons(first, rest))
      else Cons(name, WithItem(TreeDelAssoc(MkList(k), first.items), rest))
  }

  lemma ScanByItems(k: Value, l: List)
    requires l.Cons? && !Keyed(l, k) && l.car.Lst?
    ensures TreeDelAssoc(MkList(k), l)
         == var rest := TreeDelAssoc(MkList(k), l.cdr);
            if Keyed(l.car.items, k) then rest
            else WithItem(ScannedItem(k, l.car.items), rest)
  {
    if Keyed(l.car.items, k) && IsAssoc(l.car) {
      assert Same(l.car.items.car, k);
    }
  }

  lemma {:induction false} KeyedScan(k: Value, l: List)
    requires Keyed(l, k)
    ensures TreeDelAssoc(MkList(k), l) == Null && 0 < Atoms(PruneAny(k, l))
  {
  }

  lemma {:induction false} WithItemCompares(scanned: List, pruned: List, clash: bool,
                                            scanned': List, pruned': List, clash': bool)
    requires Compares(scanned, pruned, clash) && Compares(scanned', pruned', clash')
    ensures Compares(WithItem(scanned, scanned'), WithItem(pruned, pruned'), clash || clash')
  {
    assert Atoms(WithItem(scanned, scanned')) == Atoms(scanned) + Atoms(scanned');
    assert Atoms(WithItem(pruned, pruned')) == Atoms(pruned) + Atoms(pruned');
  }

  lemma {:induction false} ItemCompares(k: Value, items: List)
    requires !Keyed(items, k)
    ensures Compares(ScannedItem(k, items), PruneAny(k, items), ClashInside(k, items))
    decreases items, 1
  {
    if !IsAssocList(items) {
      ScanCompares(k, items);
    } else if items.cdr.Cons? {
      var first, rest := items.cdr.car, items.cdr.cdr;
      assert PruneAny(k, items) == Cons(items.car, PruneAny(k, items.cdr));
      ScanCompares(k, rest);
      if first.Lst? {
        if Keyed(first.items, k) {
          KeyedScan(k, first.items);
        } else {
          ScanCompares(k, first.items);
          WithItemCompares(TreeDelAssoc(MkList(k), first.items), PruneAny(k, first.items), Clash(k, first.items),
                           TreeDelAssoc(MkList(k), rest), PruneAny(k, rest), Clash(k, rest));
        }
      }
    }
  }

  lemma {:induction false} ScanCompares(k: Value, l: List)
    ensures Compares(TreeDelAssoc(MkList(k), l), PruneAny(k, l), Clash(k, l))
    decreases l, 0
  {
    if l.Cons? {
      if Keyed(l, k) {
        KeyedScan(k, l);
      } else {
        ScanCompares(k, l.cdr);
        if l.car.Lst? {
          ScanByItems(k, l);
          if !Keyed(l.car.items, k) {
            ItemCompares(k, l.car.items);
            WithItemCompares(ScannedItem(k, l.car.items), PruneAny(k, l.car.items), ClashInside(k, l.car.items),
                             TreeDelAssoc(MkList(k), l.cdr), PruneAny(k, l.cdr), Clash(k, l.cdr));
          }
        }
      }
    }
  }

  /** On every S-expression, deletion takes nothing but assocs with the key and emptied lists exactly
      when the scan does not meet the key where it takes what follows for an assoc. */
  lemma {:induction false} DeletesOnlyAssocsIff(k: Value, l: List)
    ensures TreeDelAssoc(MkList(k), l) == PruneAny(k, l) <==> !Clash(k, l)
  {
    ScanCompares(k, l);
  }

  lemma {:induction false} NodeDoesNotClash(k: Value, v: Value)
    requires IsNode(v)
    ensures !ClashInside(k, v.items) && PruneAny(k, v.items) == PruneNode(k, v).items
    ensures !Same(v.items.car, k) ==> !Clash(k, v.items)
    decreases v, 0
  {
    var body := v.items.cdr;
    if IsLeafBody(body) {
      assert !Clash(k, body) && !Clash(k, body.cdr) && PruneAny(k, body) == body;
    } else {
      ForestsDoNotClash(k, body);
      if body.Cons? {
        assert IsNode(body.car);
        ForestsDoNotClash(k, body.cdr);
        NodeDoesNotClash(k, body.car);
      }
    }
  }

  /** On well-formed forests the key never clashes, and this is the deletion of subtrees above. */
  lemma {:induction false} ForestsDoNotClash(k: Value, f: List)
    requires IsForest(f)
    ensures !Clash(k, f) && PruneAny(k, f) == Prune(k, f)
    decreases f, 1
  {
    if f.Cons? {
      assert IsNode(f.car);
      ForestsDoNotClash(k, f.cdr);
      NodeDoesNotClash(k, f.car);
    }
  }

  /** A clash: from ((x 1 k 1)) the deletion of k takes the tail (k 1) of the assoc x. */
  lemma DeleteBeyondForests()
    ensures var k, one := Symbol("k"), Num(1.0);
      var l := MkList(Lst(Cons(Symbol("x"), Cons(one, Cons(k, Cons(one, Null))))));
      && Clash(k, l) && PruneAny(k, l) == l
      && TreeDelAssoc(MkList(k), l) == MkList(Lst(Cons(Symbol("x"), Cons(one, Null))))
  {
    var k, one := Symbol("k"), Num(1.0);
    var tail := Cons(k, Cons(one, Null));
    assert TreeDelAssoc(MkList(k), tail) == Null && PruneAny(k, tail) == tail;
    assert TreeDelAssoc(MkList(k), Null) == Null;
    assert PruneAny(k, Cons(Symbol("x"), Cons(one, tail))) == Cons(Symbol("x"), Cons(one, tail));
  }

  /** The substitution of every assoc named k, at any depth, in its place. */
  function SubstAny(k: Value, n: List, l: List): List
    decreases l
  {
    if l.Null? then Null
    else if !l.car.Lst? then Cons(l.car, SubstAny(k, n, l.cdr))
    else if Keyed(l.car.items, k) then Cons(Lst(n), SubstAny(k, n, l.cdr))
    else Cons(Lst(SubstAny(k, n, l.car.items)), SubstAny(k, n, l.cdr))
  }

  /** The scan of an element that is not replaced, as TreeSubstAssoc does it in place. */
  function SubstItem(k: Value, n: List, items: List): List {
    if !IsAssocList(items) then TreeSubstAssoc(MkList(k), n, items)
    else if items.cdr.Null? then items
    else
      var first := items.cdr.car;
      Cons(items.car, Cons(if first.Lst? then Lst(TreeSubstAssoc(MkList(k), n, first.items)) else first,
                           TreeSubstAssoc(MkList(k), n, items.cdr.cdr)))
  }

  lemma {:induction false} SubstByItems(k: Value, n: List, l: List)
    requires l.Cons? && !Keyed(l, k) && l.car.Lst?
    ensures TreeSubstAssoc(MkList(k), n, l)
         == Cons(Lst(if Keyed(l.car.items, k) then n else SubstItem(k, n, l.car.items)),
                 TreeSubstAssoc(MkList(k), n, l.cdr))
  {
    if Keyed(l.car.items, k) { assert Same(l.car.items.car, k); }
  }

  lemma {:induction false} ConsCompares(scanned: List, pruned: List, clash: bool,
                                        scanned': List, pruned': List, clash': bool)
    requires Compares(scanned, pruned, clash) && Compares(scanned', pruned', clash')
    ensures Compares(Cons(Lst(scanned), scanned'), Cons(Lst(pruned), pruned'), clash || clash')
  {
    assert Atoms(Cons(Lst(scanned), scanned')) == Atoms(scanned) + Atoms(scanned');
    assert Atoms(Cons(Lst(pruned), pruned')) == Atoms(pruned) + Atoms(pruned');
  }

  lemma {:induction false} ItemSubstitutes(k: Value, n: List, items: List)
    requires !Keyed(items, k) && (n.Null? || !ClashInside(k, items))
    ensures Compares(SubstItem(k, n, items), SubstAny(k, n, items), ClashInside(k, items))
    decreases items, 1
  {
    if !IsAssocList(items) {
      SubstCompares(k, n, items);
    } else if items.cdr.Cons? {
      var first, rest := items.cdr.car, items.cdr.cdr;
      assert SubstAny(k, n, items) == Cons(items.car, SubstAny(k, n, items.cdr));
      SubstCompares(k, n, rest);
      if first.Lst? {
        var keyed := Keyed(first.items, k);
        if !keyed { SubstCompares(k, n, first.items); }
        var inner := if keyed then n else TreeSubstAssoc(MkList(k), n, first.items);
        var expected := if keyed then n else SubstAny(k, n, first.items);
        ConsCompares(inner, expected, !keyed && Clash(k, first.items),
                     TreeSubstAssoc(MkList(k), n, rest), SubstAny(k, n, rest), Clash(k, rest));
      }
    }
  }

  lemma {:induction false} SubstCompares(k: Value, n: List, l: List)
    requires n.Null? || !Clash(k, l)
    ensures Compares(TreeSubstAssoc(MkList(k), n, l), SubstAny(k, n, l), Clash(k, l))
    decreases l, 0
  {
    if l.Cons? && !Keyed(l, k) {
      SubstCompares(k, n, l.cdr);
      if l.car.Lst? {
        SubstByItems(k, n, l);
        if !Keyed(l.car.items, k) { ItemSubstitutes(k, n, l.car.items); }
      }
    }
  }

  /** On every S-expression, whatever the replacement, each assoc with the key is replaced in its place
      and all else stays in its own exactly when the key does not clash. */
  lemma {:induction false} SubstitutesInPlaceIff(k: Value, l: List)
    ensures (forall n :: TreeSubstAssoc(MkList(k), n, l) == SubstAny(k, n, l)) <==> !Clash(k, l)
  {
    if Clash(k, l) {
      SubstCompares(k, Null, l);
      assert TreeSubstAssoc(MkList(k), Null, l) != SubstAny(k, Null, l);
    } else {
      forall n ensures TreeSubstAssoc(MkList(k), n, l) == SubstAny(k, n, l) { SubstCompares(k, n, l); }
    }
  }

  lemma {:induction false} SubstituteOnForests(k: Value, n: List, f: List)
    requires IsForest(f)
    ensures TreeSubstAssoc(MkList(k), n, f) == SubstAny(k, n, f)
  {
    ForestsDoNotClash(k, f);
    SubstCompares(k, n, f);
  }

  // --- Paths of keys ------------------------------------------------------------------------

  function LastKey(k: List): Value
    requires k.Cons?
  {
    if k.cdr.Null? then k.car else LastKey(k.cdr)
  }

  /** Every value is an assoc headed by the key. */
  predicate AllHeadedBy(l: List, k: Value) {
    l.Null? || (IsAssoc(l.car) && Same(l.car.items.car, k) && AllHeadedBy(l.cdr, k))
  }

  lemma {:induction false} AllHeadedByAppend(l: List, m: List, k: Value)
    ensures AllHeadedBy(Append(l, m), k) <==> AllHeadedBy(l, k) && AllHeadedBy(m, k)
  {
    if l.Cons? { AllHeadedByAppend(l.cdr, m, k); }
  }

  /** Whatever the path and the list, only assocs headed by the last key are selected. */
  lemma {:induction false} SelectedAreHeadedByLast(k: List, l: List)
    requires k.Cons?
    ensures AllHeadedBy(TreeSelectAssoc(k, l), LastKey(k))
    decreases l
  {
    if l.Cons? {
      var a := l.car;
      var rest := TreeSelectAssoc(k, l.cdr);
      SelectedAreHeadedByLast(k, l.cdr);
      if !IsAssoc(a) {
        if a.Lst? {
          SelectedAreHeadedByLast(k, a.items);
          AllHeadedByAppend(TreeSelectAssoc(k, a.items), rest, LastKey(k));
        }
      } else {
        var Cons(name, body) := a.items;
        if Same(name, k.car) {
          if k.cdr.Cons? {
            SelectedAreHeadedByLast(k.cdr, body);
            AllHeadedByAppend(TreeSelectAssoc(k.cdr, body), rest, LastKey(k));
          }
        } else if body.Cons? {
          var inner := TreeSelectAssoc(k, body.cdr);
          SelectedAreHeadedByLast(k, body.cdr);
          if body.car.Lst? {
            SelectedAreHeadedByLast(k, body.car.items);
            AllHeadedByAppend(TreeSelectAssoc(k, body.car.items), inner, LastKey(k));
            inner := Append(TreeSelectAssoc(k, body.car.items), inner);
          }
          AllHeadedByAppend(inner, rest, LastKey(k));
        }
      }
    }
  }

  /** The nodes of a forest that a path leads to, in order. A node that the first key names is
      followed with the other keys; any other one is searched for the whole path. */
  function OnPath(k: List, f: List): List
    requires k.Cons? && IsForest(f)
    decreases f, 1
  {
    if f.Null? then Null else Append(OnPathAt(k, f.car), OnPath(k, f.cdr))
  }

  function OnPathAt(k: List, v: Value): List
    requires k.Cons? && IsNode(v)
    decreases v, 1
  {
    var name, body := v.items.car, v.items.cdr;
    if Same(name, k.car) then if k.cdr.Null? then MkList(v) else OnPathIn(k.cdr, body)
    else if IsLeafBody(body) || body.Null? then Null
    else Append(OnPathFirst(k, body.car), OnPath(k, body.cdr))
  }

  /** A first child is found by a last key only: for a longer path it is no more than its children. */
  function OnPathFirst(k: List, v: Value): List
    requires k.Cons? && IsNode(v)
    decreases v, 1
  {
    if k.cdr.Null? && Same(v.items.car, k.car) then MkList(v) else OnPathIn(k, v.items.cdr)
  }

  function OnPathIn(k: List, body: List): List
    requires k.Cons? && (IsLeafBody(body) || IsForest(body))
    decreases body, 2
  {
    if IsLeafBody(body) then Null else OnPath(k, body)
  }

  lemma {:induction false} LeafBodyPath(k: List, n: List, l: List)
    requires IsLeafBody(l)
    ensures TreeSelectAssoc(k, l) == Null && TreeDelAssoc(k, l) == l && TreeSubstAssoc(k, n, l) == l
  {
    assert TreeSelectAssoc(k, l.cdr) == Null;
  }

  lemma AppendToOne(v: Value, l: List)
    ensures Append(MkList(v), l) == Cons(v, l)
  {
    assert Append(Null, l) == l;
  }

  lemma {:induction false} SelectFirstByPath(k: List, v: Value)
    requires k.Cons? && IsNode(v)
    ensures TreeSelectAssoc(k, v.items) == OnPathFirst(k, v)
    decreases v, 0
  {
    var body := v.items.cdr;
    if IsLeafBody(body) { LeafBodyPath(k, Null, body); } else { SelectByPath(k, body); }
  }

  /** On well-formed forests the selection by a path of keys is what the path leads to. */
  lemma {:induction false} SelectByPath(k: List, f: List)
    requires k.Cons? && IsForest(f)
    ensures TreeSelectAssoc(k, f) == OnPath(k, f)
    decreases f, 0
  {
    if f.Cons? {
      assert IsNode(f.car);
      var Cons(name, body) := f.car.items;
      SelectByPath(k, f.cdr);
      AppendToOne(f.car, OnPath(k, f.cdr));
      if Same(name, k.car) {
        if k.cdr.Cons? {
          assert OnPathAt(k, f.car) == OnPathIn(k.cdr, body);
          if IsLeafBody(body) { LeafBodyPath(k.cdr, Null, body); } else { SelectByPath(k.cdr, body); }
        }
      } else if IsLeafBody(body) {
        assert TreeSelectAssoc(k, body.cdr) == Null;
      } else if body.Cons? {
        assert IsForest(body) && IsNode(body.car);
        SelectFirstByPath(k, body.car);
        SelectByPath(k, body.cdr);
      }
    }
  }

  /** The forest without the nodes a path leads to. */
  function OffPath(k: List, f: List): List
    requires k.Cons? && IsForest(f)
    decreases f, 1
  {
    if f.Null? then Null else Append(OffPathAt(k, f.car), OffPath(k, f.cdr))
  }

  function OffPathAt(k: List, v: Value): List
    requires k.Cons? && IsNode(v)
    decreases v, 1
  {
    var name, body := v.items.car, v.items.cdr;
    if Same(name, k.car) then if k.cdr.Null? then Null else MkList(Lst(Cons(name, OffPathIn(k.cdr, body))))
    else if IsLeafBody(body) || body.Null? then MkList(v)
    else MkList(Lst(Cons(name, Append(OffPathFirst(k, body.car), OffPath(k, body.cdr)))))
  }

  function OffPathFirst(k: List, v: Value): List
    requires k.Cons? && IsNode(v)
    decreases v, 1
  {
    if k.cdr.Null? && Same(v.items.car, k.car) then Null
    else MkList(Lst(Cons(v.items.car, OffPathIn(k, v.items.cdr))))
  }

  function OffPathIn(k: List, body: List): List
    requires k.Cons? && (IsLeafBody(body) || IsForest(body))
    decreases body, 2
  {
    if IsLeafBody(body) then body else OffPath(k, body)
  }

  lemma {:induction false} DeleteFirstByPath(k: List, v: Value)
    requires k.Cons? && IsNode(v)
    ensures var d := TreeDelAssoc(k, v.items); OffPathFirst(k, v) == if d.Null? then Null else MkList(Lst(d))
    decreases v, 0
  {
    var body := v.items.cdr;
    if IsLeafBody(body) { LeafBodyPath(k, Null, body); } else { DeleteByPath(k, body); }
  }

  /** On well-formed forests the deletion by a path of keys takes what the path leads to. */
  lemma {:induction false} DeleteByPath(k: List, f: List)
    requires k.Cons? && IsForest(f)
    ensures TreeDelAssoc(k, f) == OffPath(k, f)
    decreases f, 0
  {
    if f.Cons? {
      assert IsNode(f.car);
      var Cons(name, body) := f.car.items;
      DeleteByPath(k, f.cdr);
      AppendToOne(f.car, OffPath(k, f.cdr));
      if Same(name, k.car) {
        if k.cdr.Cons? {
          assert OffPathAt(k, f.car) == MkList(Lst(Cons(name, OffPathIn(k.cdr, body))));
          AppendToOne(Lst(Cons(name, OffPathIn(k.cdr, body))), OffPath(k, f.cdr));
          if IsLeafBody(body) { LeafBodyPath(k.cdr, Null, body); } else { DeleteByPath(k.cdr, body); }
        }
      } else if IsLeafBody(body) {
        assert TreeDelAssoc(k, body.cdr) == Null;
      } else if body.Cons? {
        assert IsForest(body) && IsNode(body.car);
        DeleteFirstByPath(k, body.car);
        DeleteByPath(k, body.cdr);
        var d := TreeDelAssoc(k, body.car.items);
        AppendToOne(Lst(d), OffPath(k, body.cdr));
        var left := Append(OffPathFirst(k, body.car), OffPath(k, body.cdr));
        assert left == WithItem(d, TreeDelAssoc(k, body.cdr));
        AppendToOne(Lst(Cons(name, left)), OffPath(k, f.cdr));
      }
    }
  }

  /** The forest with the nodes a path leads to replaced. */
  function Replaced(k: List, n: List, f: List): List
    requires k.Cons? && IsForest(f)
    decreases f, 1
  {
    if f.Null? then Null else Cons(ReplacedAt(k, n, f.car), Replaced(k, n, f.cdr))
  }

  function ReplacedAt(k: List, n: List, v: Value): Value
    requires k.Cons? && IsNode(v)
    decreases v, 1
  {
    var name, body := v.items.car, v.items.cdr;
    if Same(name, k.car) then Lst(if k.cdr.Null? then n else Cons(name, ReplacedIn(k.cdr, n, body)))
    else if IsLeafBody(body) || body.Null? then v
    else Lst(Cons(name, Cons(ReplacedFirst(k, n, body.car), Replaced(k, n, body.cdr))))
  }

  function ReplacedFirst(k: List, n: List, v: Value): Value
    requires k.Cons? && IsNode(v)
    decreases v, 1
  {
    Lst(if k.cdr.Null? && Same(v.items.car, k.car) then n else Cons(v.items.car, ReplacedIn(k, n, v.items.cdr)))
  }

  function ReplacedIn(k: List, n: List, body: List): List
    requires k.Cons? && (IsLeafBody(body) || IsForest(body))
    decreases body, 2
  {
    if IsLeafBody(body) then body else Replaced(k, n, body)
  }

  lemma {:induction false} SubstituteFirstByPath(k: List, n: List, v: Value)
    requires k.Cons? && IsNode(v)
    ensures Lst(TreeSubstAssoc(k, n, v.items)) == ReplacedFirst(k, n, v)
    decreases v, 0
  {
    var body := v.items.cdr;
    if IsLeafBody(body) { LeafBodyPath(k, n, body); } else { SubstituteByPath(k, n, body); }
  }

  /** On well-formed forests the substitution by a path of keys replaces what the path leads to. */
  lemma {:induction false} SubstituteByPath(k: List, n: List, f: List)
    requires k.Cons? && IsForest(f)
    ensures TreeSubstAssoc(k, n, f) == Replaced(k, n, f)
    decreases f, 0
  {
    if f.Cons? {
      assert IsNode(f.car);
      var Cons(name, body) := f.car.items;
      SubstituteByPath(k, n, f.cdr);
      if Same(name, k.car) {
        if k.cdr.Cons? {
          assert ReplacedAt(k, n, f.car) == Lst(Cons(name, ReplacedIn(k.cdr, n, body)));
          if IsLeafBody(body) { LeafBodyPath(k.cdr, n, body); } else { SubstituteByPath(k.cdr, n, body); }
        }
      } else if IsLeafBody(body) {
        assert TreeSubstAssoc(k, n, body.cdr) == Null;
      } else if body.Cons? {
        assert IsForest(body) && IsNode(body.car);
        SubstituteFirstByPath(k, n, body.car);
        SubstituteByPath(k, n, body.cdr);
      }
    }
  }

  /** A longer path passes over a first child: (a b) selects in ((x 1) (a (b 1))) and in ((r (x 1)
      (a (b 1)))), but not in ((r (a (b 1)))). */
  lemma FirstChildIsPassedOver()
    ensures var x, b := Pair(Symbol("x"), Num(1.0)), Pair(Symbol("b"), Num(1.0));
      var a, path := Pair(Symbol("a"), b), Cons(Symbol("a"), Cons(Symbol("b"), Null));
      && TreeSelectAssoc(path, MkList(Lst(Cons(Symbol("r"), Cons(x, Cons(a, Null)))))) == MkList(b)
      && TreeSelectAssoc(path, MkList(Lst(Cons(Symbol("r"), Cons(a, Null))))) == Null
  {
    var x, b := Pair(Symbol("x"), Num(1.0)), Pair(Symbol("b"), Num(1.0));
    var a, path, last := Pair(Symbol("a"), b), Cons(Symbol("a"), Cons(Symbol("b"), Null)), Cons(Symbol("b"), Null);
    assert IsNode(x) && IsNode(b);
    assert IsForest(MkList(b)) && IsNode(a);
    assert TreeSelectAssoc(path, MkList(b)) == Null by {
      assert TreeSelectAssoc(path, Null) == Null;
    }
    assert TreeSelectAssoc(last, MkList(b)) == MkList(b) by {
      assert TreeSelectAssoc(last, Null) == Null;
    }
    assert TreeSelectAssoc(path, a.items) == Null;
    assert TreeSelectAssoc(path, MkList(a)) == MkList(b);
    assert TreeSelectAssoc(path, x.items) == Null;
  }
}
