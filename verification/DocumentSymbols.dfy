/** Nesting a file's flat list of definitions into a tree with one pass and a stack
    (crates/jabar-server/src/handlers.rs:481-540). */
module DocumentSymbols {
  import opened Wrappers
  import opened Ranges
  import opened Definitions

  /** A symbol in the outline: which definition it shows, and its members. */
  datatype Symbol = Symbol(item: nat, children: seq<Symbol>)

  // ---- what the outline must be ----

  /** The definitions of a forest, each parent before its members. */
  function Preorder(forest: seq<Symbol>): seq<nat> {
    if forest == [] then [] else [forest[0].item] + Preorder(forest[0].children) + Preorder(forest[1..])
  }

  function UpTo(n: nat): seq<nat> {
    seq(n, i => i)
  }

  /** The latest of the first `j` definitions whose declaration holds the name of `i`. */
  function LatestScope(defs: seq<Definition>, j: nat, i: nat): (p: Option<nat>)
    requires j <= i < |defs|
    ensures p.Some? ==> p.value < j && Scopes(defs[p.value], defs[i].range)
    ensures forall k :: (if p.Some? then p.value + 1 else 0) <= k < j ==> !Scopes(defs[k], defs[i].range)
  {
    if j == 0 then None
    else if Scopes(defs[j - 1], defs[i].range) then Some(j - 1)
    else LatestScope(defs, j - 1, i)
  }

  /** Names in source order, neither starting nor ending before an earlier one, each
      at or after the start of its own declaration. */
  ghost predicate SourceOrdered(defs: seq<Definition>) {
    && (forall i, j :: 0 <= i < j < |defs| ==>
          && Before(defs[i].range.startLine, defs[i].range.startCol, defs[j].range.startLine, defs[j].range.startCol)
          && Before(defs[i].range.endLine, defs[i].range.endCol, defs[j].range.endLine, defs[j].range.endCol))
    && (forall i :: 0 <= i < |defs| && defs[i].enclosing.Some? ==>
          Before(defs[i].enclosing.value.startLine, defs[i].enclosing.value.startCol,
                 defs[i].range.startLine, defs[i].range.startCol))
  }

  /** A member's name lies in its parent's declaration, and in a source-ordered file
      the parent is the latest earlier definition of which that is true. */
  ghost predicate RightParent(defs: seq<Definition>, parent: Option<nat>, i: nat) {
    && i < |defs|
    && (parent.Some? ==> parent.value < i && Scopes(defs[parent.value], defs[i].range))
    && (SourceOrdered(defs) ==> parent == LatestScope(defs, i, i))
  }

  /** Every symbol of the forest, at any depth, has its right parent. */
  ghost predicate Placed(defs: seq<Definition>, forest: seq<Symbol>, parent: Option<nat>) {
    forest != [] ==>
      && RightParent(defs, parent, forest[0].item)
      && Placed(defs, forest[0].children, Some(forest[0].item))
      && Placed(defs, forest[1..], parent)
  }

  lemma {:induction false} PreorderConcat(a: seq<Symbol>, b: seq<Symbol>)
    ensures Preorder(a + b) == Preorder(a) + Preorder(b)
  {
    if a == [] {
      assert a + b == b;
    } else {
      assert (a + b)[1..] == a[1..] + b;
      PreorderConcat(a[1..], b);
    }
  }

  lemma PreorderSingle(s: Symbol)
    ensures Preorder([s]) == [s.item] + Preorder(s.children)
  {
    assert [s][1..] == [];
  }

  lemma {:induction false} PlacedSnoc(defs: seq<Definition>, forest: seq<Symbol>, s: Symbol, parent: Option<nat>)
    requires Placed(defs, forest, parent) && RightParent(defs, parent, s.item)
    requires Placed(defs, s.children, Some(s.item))
    ensures Placed(defs, forest + [s], parent)
  {
    if forest == [] {
      assert [] + [s] == [s] && [s][1..] == [];
    } else {
      assert (forest + [s])[1..] == forest[1..] + [s];
      PlacedSnoc(defs, forest[1..], s, parent);
    }
  }

  // ---- the code ----

  /** The open declarations, outermost first, each with the members found so far. */
  ghost predicate StackPlaced(defs: seq<Definition>, stack: seq<Symbol>) {
    forall k :: 0 <= k < |stack| ==>
      && RightParent(defs, Top(stack[..k]), stack[k].item)
      && Placed(defs, stack[k].children, Some(stack[k].item))
  }

  function Items(stack: seq<Symbol>): seq<nat> {
    seq(|stack|, k requires 0 <= k < |stack| => stack[k].item)
  }

  /** The innermost open declaration. */
  function Innermost(stack: seq<Symbol>): (item: nat)
    requires stack != []
    ensures item == Items(stack)[|stack| - 1]
  {
    stack[|stack| - 1].item
  }

  function Top(stack: seq<Symbol>): Option<nat> {
    if stack == [] then None else Some(stack[|stack| - 1].item)
  }

  /** `attach`: the symbol becomes the last member of the innermost open declaration,
      or a root when none is open. */
  method Attach(ghost defs: seq<Definition>, stack: seq<Symbol>, roots: seq<Symbol>, symbol: Symbol)
    returns (stack': seq<Symbol>, roots': seq<Symbol>)
    requires Placed(defs, roots, None) && StackPlaced(defs, stack)
    requires RightParent(defs, Top(stack), symbol.item) && Placed(defs, symbol.children, Some(symbol.item))
    ensures Placed(defs, roots', None) && StackPlaced(defs, stack')
    ensures Items(stack') == Items(stack)
    ensures Preorder(roots') + Preorder(stack')
            == Preorder(roots) + Preorder(stack) + [symbol.item] + Preorder(symbol.children)
  {
    hide Preorder, Placed, RightParent;
    PreorderSingle(symbol);
    if stack == [] {
      stack', roots' := stack, roots + [symbol];
      PlacedSnoc(defs, roots, symbol, None);
      PreorderConcat(roots, [symbol]);
      assert Preorder([]) == [] by { PreorderNone(); }
    } else {
      var last := |stack| - 1;
      stack', roots' := stack[last := Symbol(stack[last].item, stack[last].children + [symbol])], roots;
      AttachedPlaced(defs, stack, symbol);
      AttachedPreorder(stack, symbol);
    }
  }

  lemma PreorderNone()
    ensures Preorder([]) == []
  {
  }

  lemma AttachedPlaced(defs: seq<Definition>, stack: seq<Symbol>, symbol: Symbol)
    requires stack != [] && StackPlaced(defs, stack)
    requires RightParent(defs, Top(stack), symbol.item) && Placed(defs, symbol.children, Some(symbol.item))
    ensures var last := |stack| - 1;
            StackPlaced(defs, stack[last := Symbol(stack[last].item, stack[last].children + [symbol])])
  {
    hide Placed, RightParent;
    var last := |stack| - 1;
    var grown := stack[last := Symbol(stack[last].item, stack[last].children + [symbol])];
    PlacedSnoc(defs, stack[last].children, symbol, Some(stack[last].item));
    forall k | 0 <= k < |grown|
      ensures RightParent(defs, Top(grown[..k]), grown[k].item)
      ensures Placed(defs, grown[k].children, Some(grown[k].item))
    {
      assert grown[..k] == stack[..k];
    }
  }

  lemma AttachedPreorder(stack: seq<Symbol>, symbol: Symbol)
    requires stack != []
    ensures var last := |stack| - 1;
            Preorder(stack[last := Symbol(stack[last].item, stack[last].children + [symbol])])
            == Preorder(stack) + [symbol.item] + Preorder(symbol.children)
  {
    var last := |stack| - 1;
    var grown := Symbol(stack[last].item, stack[last].children + [symbol]);
    assert stack == stack[..last] + [stack[last]];
    assert stack[last := grown] == stack[..last] + [grown];
    PreorderConcat(stack[..last], [stack[last]]);
    PreorderConcat(stack[..last], [grown]);
    PreorderSingle(stack[last]);
    PreorderSingle(grown);
    PreorderConcat(stack[last].children, [symbol]);
    PreorderSingle(symbol);
  }

  /** Declarations that are no longer open hold no name from `i` on. */
  ghost predicate Settled(defs: seq<Definition>, open: seq<nat>, i: nat) {
    SourceOrdered(defs) ==>
      forall j, m :: 0 <= j < i <= m < |defs| && j !in open ==> !Scopes(defs[j], defs[m].range)
  }

  /** The open declarations before definition `i`: in order, and none missing that a
      later name could lie in. */
  ghost predicate Opened(defs: seq<Definition>, open: seq<nat>, i: nat) {
    && i <= |defs| && Settled(defs, open, i)
    && (forall k :: 0 <= k < |open| ==> open[k] < i && defs[open[k]].enclosing.Some?)
    && (forall k, l :: 0 <= k < l < |open| ==> open[k] < open[l])
  }

  /** A declaration whose span ends before one name ends before every later name. */
  lemma NeverAgain(defs: seq<Definition>, j: nat, i: nat, m: nat)
    requires SourceOrdered(defs) && j < i <= m < |defs| && !Scopes(defs[j], defs[i].range)
    ensures !Scopes(defs[j], defs[m].range)
  {
    if i < m {
      assert Before(defs[j].range.startLine, defs[j].range.startCol, defs[i].range.startLine, defs[i].range.startCol);
      assert Before(defs[i].range.endLine, defs[i].range.endCol, defs[m].range.endLine, defs[m].range.endCol);
    }
  }

  /** Popping a declaration that does not hold the name at hand loses nothing: in
      source order no later name can lie in it either. */
  lemma OpenedPop(defs: seq<Definition>, open: seq<nat>, i: nat)
    requires open != [] && i < |defs| && Opened(defs, open, i)
    requires !Scopes(defs[open[|open| - 1]], defs[i].range)
    ensures Opened(defs, open[..|open| - 1], i)
  {
    hide Scopes;
    var rest, gone := open[..|open| - 1], open[|open| - 1];
    assert open == rest + [gone];
    if SourceOrdered(defs) {
      forall j, m | 0 <= j < i <= m < |defs| && j !in rest
        ensures !Scopes(defs[j], defs[m].range)
      {
        if j == gone {
          NeverAgain(defs, j, i, m);
        }
      }
    }
  }

  lemma OpenedNext(defs: seq<Definition>, open: seq<nat>, i: nat)
    requires i < |defs| && Opened(defs, open, i)
    ensures Opened(defs, if defs[i].enclosing.Some? then open + [i] else open, i + 1)
  {
    var next := if defs[i].enclosing.Some? then open + [i] else open;
    if SourceOrdered(defs) {
      forall j, m | 0 <= j < i + 1 <= m < |defs| && j !in next
        ensures !Scopes(defs[j], defs[m].range)
      {
        assert j == i ==> defs[i].enclosing.None?;
        assert j !in open;
      }
    }
  }

  /** With everything that cannot hold the name popped, the innermost open
      declaration is the right parent. */
  lemma TopIsRightParent(defs: seq<Definition>, open: seq<nat>, i: nat)
    requires i < |defs| && Opened(defs, open, i)
    requires open != [] ==> Scopes(defs[open[|open| - 1]], defs[i].range)
    ensures RightParent(defs, if open == [] then None else Some(open[|open| - 1]), i)
  {
    if SourceOrdered(defs) {
      var latest := LatestScope(defs, i, i);
      if latest.Some? {
        assert latest.value in open;
      }
    }
  }

  /** The pass after `n` definitions: they are all somewhere, in order, well placed. */
  ghost predicate Nesting(defs: seq<Definition>, n: nat, stack: seq<Symbol>, roots: seq<Symbol>) {
    && Placed(defs, roots, None) && StackPlaced(defs, stack)
    && Preorder(roots) + Preorder(stack) == UpTo(n)
  }

  /** `document_symbols_from`. Nothing is lost or repeated and order is kept, for any
      input; every member's name lies in its parent's declaration; and in a
      source-ordered file the parent is the latest earlier one of which that holds. */
  method DocumentSymbolsFrom(defs: seq<Definition>) returns (roots: seq<Symbol>)
    ensures Preorder(roots) == UpTo(|defs|)
    ensures Placed(defs, roots, None)
  {
    roots := [];
    var stack: seq<Symbol> := [];
    hide Nesting, Opened, Scopes, RightParent;
    NestingStart(defs);
    for i := 0 to |defs|
      invariant Nesting(defs, i, stack, roots) && Opened(defs, Items(stack), i)
    {
      stack, roots := PopOutside(defs, i, stack, roots);
      TopIsRightParent(defs, Items(stack), i);
      OpenedNext(defs, Items(stack), i);
      if defs[i].enclosing.Some? {
        PushNesting(defs, i, stack, roots);
        assert Items(stack + [Symbol(i, [])]) == Items(stack) + [i];
        stack := stack + [Symbol(i, [])];
      } else {
        stack, roots := AttachLeaf(defs, i, stack, roots);
      }
    }
    while stack != []
      invariant Nesting(defs, |defs|, stack, roots)
      decreases |stack|
    {
      stack, roots := Finish(defs, |defs|, stack, roots);
    }
    NestingEnd(defs, |defs|, roots);
  }

  /** The inner loop: closes every open declaration that does not hold name `i`. */
  method PopOutside(defs: seq<Definition>, i: nat, stack0: seq<Symbol>, roots0: seq<Symbol>)
    returns (stack: seq<Symbol>, roots: seq<Symbol>)
    requires i < |defs| && Nesting(defs, i, stack0, roots0) && Opened(defs, Items(stack0), i)
    ensures Nesting(defs, i, stack, roots) && Opened(defs, Items(stack), i)
    ensures stack != [] ==> Innermost(stack) < i && Scopes(defs[Innermost(stack)], defs[i].range)
  {
    hide Nesting, Settled, Scopes;
    stack, roots := stack0, roots0;
    while stack != [] && !Scopes(defs[Innermost(stack)], defs[i].range)
      invariant Nesting(defs, i, stack, roots) && Opened(defs, Items(stack), i)
      decreases |stack|
    {
      OpenedPop(defs, Items(stack), i);
      stack, roots := Finish(defs, i, stack, roots);
    }
  }

  lemma NestingStart(defs: seq<Definition>)
    ensures Nesting(defs, 0, [], []) && Opened(defs, Items([]), 0)
  {
  }

  lemma NestingEnd(defs: seq<Definition>, n: nat, roots: seq<Symbol>)
    requires Nesting(defs, n, [], roots)
    ensures Preorder(roots) == UpTo(n) && Placed(defs, roots, None)
  {
    assert Preorder(roots) + [] == Preorder(roots);
  }

  /** Pops the innermost open declaration and attaches it. */
  method Finish(ghost defs: seq<Definition>, ghost n: nat, stack: seq<Symbol>, roots: seq<Symbol>)
    returns (stack': seq<Symbol>, roots': seq<Symbol>)
    requires stack != [] && Nesting(defs, n, stack, roots)
    ensures Nesting(defs, n, stack', roots') && Items(stack') == Items(stack)[..|stack| - 1]
  {
    hide Preorder, Placed, RightParent, Top;
    var last := |stack| - 1;
    var rest, finished := stack[..last], stack[last];
    PopPlaced(defs, stack);
    stack', roots' := Attach(defs, rest, roots, finished);
    assert Items(rest) == Items(stack)[..last];
    assert stack == rest + [finished];
    PreorderConcat(rest, [finished]);
    PreorderSingle(finished);
  }

  lemma PopPlaced(defs: seq<Definition>, stack: seq<Symbol>)
    requires stack != [] && StackPlaced(defs, stack)
    ensures StackPlaced(defs, stack[..|stack| - 1])
  {
    hide Placed, RightParent;
    forall k | 0 <= k < |stack| - 1
      ensures stack[..|stack| - 1][..k] == stack[..k]
    {
    }
  }

  lemma PushNesting(defs: seq<Definition>, i: nat, stack: seq<Symbol>, roots: seq<Symbol>)
    requires Nesting(defs, i, stack, roots) && RightParent(defs, Top(stack), i)
    ensures Nesting(defs, i + 1, stack + [Symbol(i, [])], roots)
  {
    hide RightParent;
    var pushed := stack + [Symbol(i, [])];
    forall k | 0 <= k < |pushed|
      ensures RightParent(defs, Top(pushed[..k]), pushed[k].item)
      ensures Placed(defs, pushed[k].children, Some(pushed[k].item))
    {
      assert pushed[..k] == stack[..k];
    }
    PreorderConcat(stack, [Symbol(i, [])]);
    PreorderSingle(Symbol(i, []));
    PreorderNone();
    assert UpTo(i + 1) == UpTo(i) + [i];
  }

  /** A definition without a declaration span holds nothing: it is attached at once. */
  method AttachLeaf(ghost defs: seq<Definition>, i: nat, stack: seq<Symbol>, roots: seq<Symbol>)
    returns (stack': seq<Symbol>, roots': seq<Symbol>)
    requires Nesting(defs, i, stack, roots) && RightParent(defs, Top(stack), i)
    ensures Nesting(defs, i + 1, stack', roots') && Items(stack') == Items(stack)
  {
    hide RightParent, Top;
    stack', roots' := Attach(defs, stack, roots, Symbol(i, []));
    PreorderNone();
    assert UpTo(i + 1) == UpTo(i) + [i];
  }
}
