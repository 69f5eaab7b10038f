/**
  Declarators of the C compiler: parsing builds a chain of type cells from the base type
  outwards, then `reverse` turns the chain round in place.
 */
module Declarators {
  import opened Sequences

  const POINTER_TAG := -4
  const ARRAY_TAG := -5
  const FUNCTION_TAG := -8
  const CONST_TAG := 7

  // ---------- declarators and types ----------

  datatype Decl = Star(d: Decl) | Direct(head: Head, post: seq<Post>)

  datatype Head = Name(id: string) | Paren(d: Decl)

  /** What may follow a name: [n], [], (), or a list of argument names. */
  datatype Post = Index(n: nat) | Open | Call | CallWith(names: seq<string>)

  datatype CType = Base | PointerTo(t: CType) | ArrayOf(t: CType, n: int) | FunctionOf(t: CType)

  /** The type that C gives to the declared name when the declarator is applied to t. */
  function TypeOf(d: Decl, t: CType): CType
    decreases d, 0
  {
    match d
    case Star(d1) => TypeOf(d1, PointerTo(t))
    case Direct(head, post) =>
      match head
      case Name(_) => Applied(post, t)
      case Paren(d1) => TypeOf(d1, Applied(post, t))
  }

  /** The last suffix is applied first: `x[2][3]` is an array of two arrays of three. */
  function Applied(post: seq<Post>, t: CType): CType {
    if post == [] then t else
    var u := Applied(post[1..], t);
    match post[0]
    case Index(n) => ArrayOf(u, n)
    case Open => PointerTo(u)
    case Call => FunctionOf(u)
    case CallWith(_) => FunctionOf(u)
  }

  // ---------- chains of cells ----------

  datatype Link = Pointer | Array(n: int) | Function

  function Tag(l: Link): int {
    match l
    case Pointer => POINTER_TAG
    case Array(_) => ARRAY_TAG
    case Function => FUNCTION_TAG
  }

  function Cell(l: Link): nat { if l.Array? then 3 else 2 }

  function LinkOf(p: Post): Link {
    match p
    case Index(n) => Array(n)
    case Open => Pointer
    case Call => Function
    case CallWith(_) => Function
  }

  function LinksOf(post: seq<Post>): seq<Link> { if post == [] then [] else [LinkOf(post[0])] + LinksOf(post[1..]) }

  /** The type of a declarator as a list, outermost constructor first. */
  function Links(d: Decl): seq<Link> {
    match d
    case Star(d1) => Links(d1) + [Pointer]
    case Direct(head, post) => (match head case Name(_) => [] case Paren(d1) => Links(d1)) + LinksOf(post)
  }

  function Made(l: Link, t: CType): CType {
    match l
    case Pointer => PointerTo(t)
    case Array(n) => ArrayOf(t, n)
    case Function => FunctionOf(t)
  }

  function Fold(ls: seq<Link>, t: CType): CType { if ls == [] then t else Made(ls[0], Fold(ls[1..], t)) }

  lemma {:induction false} FoldAppend(a: seq<Link>, b: seq<Link>, t: CType)
    ensures Fold(a + b, t) == Fold(a, Fold(b, t))
  {
    if a == [] {
      assert a + b == b;
    } else {
      assert (a + b)[1..] == a[1..] + b;
      FoldAppend(a[1..], b, t);
    }
  }

  lemma {:induction false} FoldPost(post: seq<Post>, t: CType)
    ensures Fold(LinksOf(post), t) == Applied(post, t)
  {
    if post != [] {
      FoldPost(post[1..], t);
      assert LinksOf(post)[1..] == LinksOf(post[1..]);
    }
  }

  /** The list is the type. */
  lemma {:induction false} LinksAreType(d: Decl, t: CType)
    ensures Fold(Links(d), t) == TypeOf(d, t)
    decreases d
  {
    match d
    case Star(d1) =>
      FoldAppend(Links(d1), [Pointer], t);
      assert [Pointer][1..] == [];
      assert Fold([Pointer], t) == Made(Pointer, Fold([], t));
      LinksAreType(d1, PointerTo(t));
    case Direct(head, post) =>
      FoldPost(post, t);
      match head {
        case Name(_) => assert [] + LinksOf(post) == LinksOf(post);
        case Paren(d1) =>
          FoldAppend(Links(d1), LinksOf(post), t);
          LinksAreType(d1, Applied(post, t));
      }
  }

  /** From value t the heap holds the chain of links in these cells and then the value base. */
  ghost predicate Chain(h: seq<int>, t: int, ls: seq<Link>, cells: seq<nat>, base: int) {
    && |cells| == |ls| && t == NextOf(cells, 0, base)
    && forall i :: 0 <= i < |ls| ==> CellAt(h, ls, cells, base, i)
  }

  function NextOf(cells: seq<nat>, i: nat, base: int): int { if i < |cells| then cells[i] else base }

  predicate CellAt(h: seq<int>, ls: seq<Link>, cells: seq<nat>, base: int, i: nat)
    requires i < |ls| == |cells|
  {
    var c := cells[i];
    && c + Cell(ls[i]) <= |h| && h[c] == Tag(ls[i]) && h[c + 1] == NextOf(cells, i + 1, base)
    && (ls[i].Array? ==> h[c + 2] == ls[i].n)
  }

  /** Cells do not overlap, and none is the base value. */
  ghost predicate Apart(ls: seq<Link>, cells: seq<nat>, base: int) {
    && |cells| == |ls|
    && (forall i :: 0 <= i < |cells| ==> cells[i] != base)
    && forall i, j :: 0 <= i < |cells| && 0 <= j < |cells| && i != j ==> Disjoint(cells[i], Cell(ls[i]), cells[j], Cell(ls[j]))
  }

  predicate Disjoint(a: nat, n: nat, b: nat, m: nat) { a + n <= b || b + m <= a }

  /** The heap read as a type. */
  ghost predicate IsType(h: seq<int>, t: int, ct: CType, base: int)
    decreases ct
  {
    match ct
    case Base => t == base
    case PointerTo(u) => 0 <= t && t + 2 <= |h| && h[t] == POINTER_TAG && IsType(h, h[t + 1], u, base)
    case ArrayOf(u, n) => 0 <= t && t + 3 <= |h| && h[t] == ARRAY_TAG && h[t + 2] == n && IsType(h, h[t + 1], u, base)
    case FunctionOf(u) => 0 <= t && t + 2 <= |h| && h[t] == FUNCTION_TAG && IsType(h, h[t + 1], u, base)
  }

  lemma {:induction false} ChainIsType(h: seq<int>, t: int, ls: seq<Link>, cells: seq<nat>, base: int)
    requires Chain(h, t, ls, cells, base)
    ensures IsType(h, t, Fold(ls, Base), base)
    decreases |ls|
  {
    if ls != [] {
      assert CellAt(h, ls, cells, base, 0);
      ChainTail(h, t, ls, cells, base);
      ChainIsType(h, h[cells[0] + 1], ls[1..], cells[1..], base);
    }
  }

  lemma ChainTail(h: seq<int>, t: int, ls: seq<Link>, cells: seq<nat>, base: int)
    requires Chain(h, t, ls, cells, base) && ls != []
    ensures cells[0] + 1 < |h| && Chain(h, h[cells[0] + 1], ls[1..], cells[1..], base)
  {
    assert CellAt(h, ls, cells, base, 0);
    forall i | 0 <= i < |ls| - 1 ensures CellAt(h, ls[1..], cells[1..], base, i) { assert CellAt(h, ls, cells, base, i + 1); }
  }

  function Reversed<T>(s: seq<T>): (r: seq<T>)
    ensures |r| == |s|
  {
    if s == [] then [] else Reversed(s[1..]) + [s[0]]
  }

  lemma {:induction false} ReversedAt<T>(s: seq<T>, i: nat)
    requires i < |s|
    ensures Reversed(s)[i] == s[|s| - 1 - i]
  {
    if i < |s| - 1 { ReversedAt(s[1..], i); }
  }

  lemma {:induction false} ReversedAppend<T>(a: seq<T>, b: seq<T>)
    ensures Reversed(a + b) == Reversed(b) + Reversed(a)
  {
    if a == [] {
      assert a + b == b;
    } else {
      assert (a + b)[1..] == a[1..] + b;
      ReversedAppend(a[1..], b);
    }
  }

  lemma {:induction false} ReversedTwice<T>(s: seq<T>)
    ensures Reversed(Reversed(s)) == s
  {
    forall i | 0 <= i < |s| ensures Reversed(Reversed(s))[i] == s[i] {
      ReversedAt(Reversed(s), i);
      ReversedAt(s, |s| - 1 - i);
    }
  }

  // ---------- reverse ----------

  /** Only the second words of these cells differ. */
  ghost predicate OnlySeconds(h: seq<int>, h': seq<int>, cells: seq<nat>) {
    |h'| == |h| && forall k :: 0 <= k < |h| && (forall i :: 0 <= i < |cells| ==> k != cells[i] + 1) ==> h'[k] == h[k]
  }

  /** reverse: turn the chain from `ty` up to t1 round; the result is the new type. */
  method Reverse(heap: array<int>, ty: int, t1: int, ghost ls: seq<Link>, ghost cells: seq<nat>) returns (t2: int)
    requires Chain(heap[..], ty, ls, cells, t1) && Apart(ls, cells, t1)
    modifies heap
    ensures Chain(heap[..], t2, Reversed(ls), Reversed(cells), t1)
    ensures OnlySeconds(old(heap[..]), heap[..], cells)
  {
    var t := ty;
    t2 := t1;
    ghost var k := 0;
    while t != t1
      invariant 0 <= k <= |ls| && t == NextOf(cells, k, t1) && t2 == (if k > 0 then cells[k - 1] else t1)
      invariant forall i :: k <= i < |ls| ==> CellAt(heap[..], ls, cells, t1, i)
      invariant forall i :: 0 <= i < k ==> Turned(heap[..], ls, cells, t1, i)
      invariant OnlySeconds(old(heap[..]), heap[..], cells)
      decreases |ls| - k
    {
      assert k < |ls| && CellAt(heap[..], ls, cells, t1, k);
      var t3 := heap[t + 1];
      ghost var h := heap[..];
      heap[t + 1] := t2;
      TurnOne(h, heap[..], ls, cells, t1, k);
      t2 := t;
      t := t3;
      k := k + 1;
    }
    assert k == |ls|;
    TurnedChain(heap[..], ls, cells, t1);
    if ls != [] { ReversedAt(cells, 0); }
  }

  /** Cell i points back. */
  predicate Turned(h: seq<int>, ls: seq<Link>, cells: seq<nat>, base: int, i: nat)
    requires i < |ls| == |cells|
  {
    var c := cells[i];
    && c + Cell(ls[i]) <= |h| && h[c] == Tag(ls[i]) && h[c + 1] == (if i > 0 then cells[i - 1] else base)
    && (ls[i].Array? ==> h[c + 2] == ls[i].n)
  }

  lemma TurnOne(h: seq<int>, h': seq<int>, ls: seq<Link>, cells: seq<nat>, base: int, k: nat)
    requires Apart(ls, cells, base) && k < |ls| && CellAt(h, ls, cells, base, k)
    requires h' == h[cells[k] + 1 := if k > 0 then cells[k - 1] else base]
    requires forall i :: k <= i < |ls| ==> CellAt(h, ls, cells, base, i)
    requires forall i :: 0 <= i < k ==> Turned(h, ls, cells, base, i)
    ensures forall i :: k < i < |ls| ==> CellAt(h', ls, cells, base, i)
    ensures forall i :: 0 <= i <= k ==> Turned(h', ls, cells, base, i)
  {
    forall i | 0 <= i < |ls| && i != k ensures Disjoint(cells[i], Cell(ls[i]), cells[k], Cell(ls[k])) {}
    forall i | k < i < |ls| ensures CellAt(h', ls, cells, base, i) { assert CellAt(h, ls, cells, base, i); }
    forall i | 0 <= i <= k ensures Turned(h', ls, cells, base, i) { assert i < k ==> Turned(h, ls, cells, base, i); }
  }

  lemma TurnedChain(h: seq<int>, ls: seq<Link>, cells: seq<nat>, base: int)
    requires |cells| == |ls| && forall i :: 0 <= i < |ls| ==> Turned(h, ls, cells, base, i)
    ensures Chain(h, if ls == [] then base else cells[|cells| - 1], Reversed(ls), Reversed(cells), base)
  {
    hide CellAt; hide Turned; hide Reversed;
    ReversedLength(ls); ReversedLength(cells);
    if |ls| > 0 { ReversedAt(cells, 0); }
    forall i | 0 <= i < |ls| ensures CellAt(h, Reversed(ls), Reversed(cells), base, i) {
      assert Turned(h, ls, cells, base, |ls| - 1 - i);
      TurnedAt(h, ls, cells, base, i);
    }
  }

  lemma ReversedLength<T>(s: seq<T>)
    ensures |Reversed(s)| == |s|
  {
    if s != [] { ReversedAt(s, 0); }
  }

  /** What points back from one end points forth from the other. */
  lemma TurnedAt(h: seq<int>, ls: seq<Link>, cells: seq<nat>, base: int, i: nat)
    requires |cells| == |ls| && i < |ls| && Turned(h, ls, cells, base, |ls| - 1 - i)
    ensures |Reversed(ls)| == |Reversed(cells)| == |ls| && CellAt(h, Reversed(ls), Reversed(cells), base, i)
  {
    hide Reversed;
    ReversedAt(ls, i);
    ReversedAt(cells, i);
    if i + 1 < |ls| { ReversedAt(cells, i + 1); }
  }

  // ---------- tokens ----------

  datatype Token = Mul | LPar | RPar | LBra | RBra | Comma | Ident(id: string) | Constant(n: nat) | Other

  function NamesOf(names: seq<string>): seq<Token> {
    if names == [] then [] else if |names| == 1 then [Ident(names[0])] else [Ident(names[0]), Comma] + NamesOf(names[1..])
  }

  function PostToken(p: Post): seq<Token> {
    match p
    case Index(n) => [LBra, Constant(n), RBra]
    case Open => [LBra, RBra]
    case Call => [LPar, RPar]
    case CallWith(names) => [LPar] + (NamesOf(names) + [RPar])
  }

  function PostTokens(post: seq<Post>): seq<Token> {
    if post == [] then [] else PostToken(post[0]) + PostTokens(post[1..])
  }

  function TokensOf(d: Decl): seq<Token> {
    match d
    case Star(d1) => [Mul] + TokensOf(d1)
    case Direct(head, post) =>
      (match head case Name(id) => [Ident(id)] case Paren(d1) => [LPar] + (TokensOf(d1) + [RPar])) + PostTokens(post)
  }

  function NameOf(d: Decl): string {
    match d
    case Star(d1) => NameOf(d1)
    case Direct(head, _) => (match head case Name(id) => id case Paren(d1) => NameOf(d1))
  }

  /** What is being declared: `[]` is for arguments, argument lists are for global functions;
      only global types come from the lower end of the heap. */
  datatype Mode = Global | Argument | Local

  predicate AllowedPost(p: Post, mode: Mode) { (p.Open? ==> mode.Argument?) && (p.CallWith? ==> mode.Global? && p.names != []) }

  predicate Allowed(d: Decl, mode: Mode) {
    match d
    case Star(d1) => Allowed(d1, mode)
    case Direct(head, post) =>
      (match head case Name(_) => true case Paren(d1) => Allowed(d1, mode)) && forall p :: p in post ==> AllowedPost(p, mode)
  }

  /** The token after a declarator starts no suffix. */
  predicate Stops(rest: seq<Token>) { rest == [] || !(rest[0].LPar? || rest[0].LBra?) }

  // ---------- the parser ----------

  /** The cells of a chain lie in g0..l0 and not in the free part gfree..lfree. */
  ghost predicate Inside(ls: seq<Link>, cells: seq<nat>, g0: nat, l0: nat, gfree: nat, lfree: nat) {
    |cells| == |ls| && g0 <= gfree <= lfree <= l0
    && forall i :: 0 <= i < |ls| ==> g0 <= cells[i] && cells[i] + Cell(ls[i]) <= l0 && Disjoint(cells[i], Cell(ls[i]), gfree, lfree - gfree)
  }

  ghost predicate Built(h: seq<int>, t: int, ls: seq<Link>, cells: seq<nat>, base: int, g0: nat, l0: nat, gfree: nat, lfree: nat) {
    && Chain(h, t, ls, cells, base) && Apart(ls, cells, base) && Inside(ls, cells, g0, l0, gfree, lfree)
    && !(g0 <= base < l0) && l0 <= |h|
  }

  lemma BuiltNothing(h: seq<int>, base: int, gfree: nat, lfree: nat)
    requires !(gfree <= base < lfree) && gfree <= lfree <= |h|
    ensures Built(h, base, [], [], base, gfree, lfree, gfree, lfree)
  {}

  /** A new cell in front of the chain. */
  lemma BuiltMore(h: seq<int>, h': seq<int>, t: int, l: Link, ls: seq<Link>, cells: seq<nat>, base: int, g0: nat, l0: nat,
                  gfree: nat, lfree: nat, e: nat, gfree': nat, lfree': nat)
    requires Built(h, t, ls, cells, base, g0, l0, gfree, lfree) && gfree' <= lfree'
    requires (e == gfree && gfree' == gfree + Cell(l) && lfree' == lfree) || (e == lfree' && lfree' + Cell(l) == lfree && gfree' == gfree)
    requires |h'| == |h| && h'[e] == Tag(l) && h'[e + 1] == t && (l.Array? ==> h'[e + 2] == l.n)
    requires forall k :: 0 <= k < |h| && !(e <= k < e + Cell(l)) ==> h'[k] == h[k]
    ensures Built(h', e, [l] + ls, [e] + cells, base, g0, l0, gfree', lfree')
  {
    hide CellAt; hide Disjoint; hide Tag;
    forall i | 0 <= i < |ls| ensures Disjoint(cells[i], Cell(ls[i]), gfree, lfree - gfree) && CellAt(h, ls, cells, base, i) {}
    BuiltCells(h, h', l, ls, cells, base, gfree, lfree, e);
    BuiltApart(l, ls, cells, base, gfree, lfree, e);
    BuiltInside(l, ls, cells, g0, l0, gfree, lfree, gfree', lfree', e);
  }

  /** The cell at e is one of the two ends of the free part. */
  predicate AtEnd(l: Link, gfree: nat, lfree: nat, e: nat) { gfree <= e && e + Cell(l) <= lfree }

  lemma BuiltCells(h: seq<int>, h': seq<int>, l: Link, ls: seq<Link>, cells: seq<nat>, base: int, gfree: nat, lfree: nat, e: nat)
    requires |cells| == |ls| && AtEnd(l, gfree, lfree, e) && lfree <= |h| == |h'|
    requires h'[e] == Tag(l) && h'[e + 1] == NextOf(cells, 0, base) && (l.Array? ==> h'[e + 2] == l.n)
    requires forall k :: 0 <= k < |h| && !(e <= k < e + Cell(l)) ==> h'[k] == h[k]
    requires forall i :: 0 <= i < |ls| ==> Disjoint(cells[i], Cell(ls[i]), gfree, lfree - gfree) && CellAt(h, ls, cells, base, i)
    ensures forall i :: 0 <= i <= |ls| ==> CellAt(h', [l] + ls, [e] + cells, base, i)
  {
    hide CellAt; hide Disjoint; hide Tag; hide Cell; hide NextOf;
    assert CellAt(h', [l] + ls, [e] + cells, base, 0) by { FirstCell(h', l, ls, cells, base, e); }
    forall i | 0 < i <= |ls| ensures CellAt(h', [l] + ls, [e] + cells, base, i) {
      OldCell(h, h', l, ls, cells, base, gfree, lfree, e, i - 1);
    }
  }

  lemma FirstCell(h: seq<int>, l: Link, ls: seq<Link>, cells: seq<nat>, base: int, e: nat)
    requires |cells| == |ls| && e + Cell(l) <= |h|
    requires h[e] == Tag(l) && h[e + 1] == NextOf(cells, 0, base) && (l.Array? ==> h[e + 2] == l.n)
    ensures CellAt(h, [l] + ls, [e] + cells, base, 0)
  {}

  lemma OldCell(h: seq<int>, h': seq<int>, l: Link, ls: seq<Link>, cells: seq<nat>, base: int, gfree: nat, lfree: nat, e: nat, i: nat)
    requires |cells| == |ls| && i < |ls| && AtEnd(l, gfree, lfree, e) && lfree <= |h| == |h'|
    requires forall k :: 0 <= k < |h| && !(e <= k < e + Cell(l)) ==> h'[k] == h[k]
    requires Disjoint(cells[i], Cell(ls[i]), gfree, lfree - gfree) && CellAt(h, ls, cells, base, i)
    ensures CellAt(h', [l] + ls, [e] + cells, base, i + 1)
  {
    hide Tag;
    assert ([e] + cells)[i + 1] == cells[i] && ([l] + ls)[i + 1] == ls[i];
    assert NextOf([e] + cells, i + 2, base) == NextOf(cells, i + 1, base);
  }

  lemma BuiltApart(l: Link, ls: seq<Link>, cells: seq<nat>, base: int, gfree: nat, lfree: nat, e: nat)
    requires Apart(ls, cells, base) && AtEnd(l, gfree, lfree, e) && e != base
    requires forall i :: 0 <= i < |ls| ==> Disjoint(cells[i], Cell(ls[i]), gfree, lfree - gfree)
    ensures Apart([l] + ls, [e] + cells, base)
  {
    var ls', cells' := [l] + ls, [e] + cells;
    forall i, j | 0 <= i < |ls'| && 0 <= j < |ls'| && i != j ensures Disjoint(cells'[i], Cell(ls'[i]), cells'[j], Cell(ls'[j])) {
      if i > 0 && j > 0 { assert Disjoint(cells[i - 1], Cell(ls[i - 1]), cells[j - 1], Cell(ls[j - 1])); }
    }
  }

  lemma BuiltInside(l: Link, ls: seq<Link>, cells: seq<nat>, g0: nat, l0: nat, gfree: nat, lfree: nat, gfree': nat, lfree': nat, e: nat)
    requires Inside(ls, cells, g0, l0, gfree, lfree) && gfree' <= lfree'
    requires (e == gfree && gfree' == gfree + Cell(l) && lfree' == lfree) || (e == lfree' && lfree' + Cell(l) == lfree && gfree' == gfree)
    ensures Inside([l] + ls, [e] + cells, g0, l0, gfree', lfree')
  {
    var ls', cells' := [l] + ls, [e] + cells;
    forall i | 0 <= i < |ls'|
      ensures g0 <= cells'[i] && cells'[i] + Cell(ls'[i]) <= l0 && Disjoint(cells'[i], Cell(ls'[i]), gfree', lfree' - gfree')
    {
      if i > 0 { assert g0 <= cells[i - 1] && Disjoint(cells[i - 1], Cell(ls[i - 1]), gfree, lfree - gfree); }
    }
  }

  /** Words taken out of the free part for something else. */
  lemma BuiltLess(h: seq<int>, h': seq<int>, t: int, ls: seq<Link>, cells: seq<nat>, base: int, g0: nat, l0: nat,
                  gfree: nat, lfree: nat, gfree': nat, lfree': nat)
    requires Built(h, t, ls, cells, base, g0, l0, gfree, lfree) && gfree <= gfree' <= lfree' <= lfree
    requires |h'| == |h| && forall k :: 0 <= k < |h| && !(gfree <= k < lfree) ==> h'[k] == h[k]
    ensures Built(h', t, ls, cells, base, g0, l0, gfree', lfree')
  {
    hide CellAt; hide Apart;
    forall i | 0 <= i < |ls|
      ensures g0 <= cells[i] && cells[i] + Cell(ls[i]) <= l0
      ensures Disjoint(cells[i], Cell(ls[i]), gfree', lfree' - gfree') && CellAt(h', ls, cells, base, i)
    {
      assert Disjoint(cells[i], Cell(ls[i]), gfree, lfree - gfree) && CellAt(h, ls, cells, base, i);
      SameCell(h, h', ls, cells, base, gfree, lfree, i);
    }
  }

  lemma SameCell(h: seq<int>, h': seq<int>, ls: seq<Link>, cells: seq<nat>, base: int, gfree: nat, lfree: nat, i: nat)
    requires |cells| == |ls| && i < |ls| && gfree <= lfree && |h'| == |h|
    requires forall k :: 0 <= k < |h| && !(gfree <= k < lfree) ==> h'[k] == h[k]
    requires Disjoint(cells[i], Cell(ls[i]), gfree, lfree - gfree) && CellAt(h, ls, cells, base, i)
    ensures CellAt(h', ls, cells, base, i)
  {
    hide Tag;
  }

  // ---------- room ----------

  /** Words of the constant that gives an array its size. */
  function Constants(l: Link): nat { if l.Array? then 2 else 0 }

  /** Heap words that it takes to make a chain of these links: two for a pointer or a function, and
      three for an array with two for its size. */
  function Room(ls: seq<Link>): nat { if ls == [] then 0 else (if ls[0].Array? then 5 else 2) + Room(ls[1..]) }

  lemma {:induction false} RoomAppend(a: seq<Link>, b: seq<Link>)
    ensures Room(a + b) == Room(a) + Room(b)
  {
    if a == [] {
      assert a + b == b;
    } else {
      assert (a + b)[1..] == a[1..] + b;
      RoomAppend(a[1..], b);
    }
  }

  lemma RoomNone()
    ensures Room([]) == 0
  {}

  lemma RoomOne(l: Link)
    ensures Room([l]) == Constants(l) + Cell(l)
  {
    assert [l][1..] == [];
  }

  /** One link more, taken out of what is left. */
  lemma RoomStep(ls: seq<Link>, l: Link, left: seq<Link>, all: seq<Link>)
    requires ls + ([l] + left) == all
    ensures Room(ls + [l]) == Room(ls) + Room([l]) && Room(all) == Room(ls) + Room([l]) + Room(left)
  {
    hide Room;
    RoomAppend(ls, [l]);
    RoomAppend([l], left);
    RoomAppend(ls, [l] + left);
  }

  class Parser {
    var heap: array<int>
    var gfree: nat
    var lfree: nat
    var ty: int
    var pos: nat
    const toks: seq<Token>
    const mode: Mode

    constructor (heap: array<int>, gfree: nat, lfree: nat, ty: int, toks: seq<Token>, mode: Mode)
      ensures this.heap == heap && this.gfree == gfree && this.lfree == lfree && this.ty == ty && this.toks == toks && this.mode == mode && pos == 0
    {
      this.heap, this.gfree, this.lfree, this.ty, this.toks, this.mode, pos := heap, gfree, lfree, ty, toks, mode, 0;
    }

    function Sym(): Token
      reads this
    {
      if pos < |toks| then toks[pos] else Other
    }

    ghost predicate Has(ls: seq<Link>, cells: seq<nat>, base: int, g0: nat, l0: nat)
      reads this, heap
    {
      Built(heap[..], ty, ls, cells, base, g0, l0, gfree, lfree)
    }

    /** Nothing outside g0..l0 differs. */
    twostate predicate Frame(g0: nat, l0: nat)
      reads this, heap
    {
      heap == old(heap) && forall k :: 0 <= k < heap.Length && !(g0 <= k < l0) ==> heap[k] == old(heap[k])
    }

    /** getfree: n words from either end of the free part; false when it has fewer. */
    method GetFree(n: nat) returns (ok: bool, e: nat)
      requires gfree <= lfree
      modifies this`gfree, this`lfree
      ensures ok <==> old(lfree - gfree) >= n
      ensures ok && mode.Global? ==> e == old(gfree) && gfree == old(gfree) + n && lfree == old(lfree)
      ensures ok && !mode.Global? ==> e == lfree && lfree == old(lfree) - n && gfree == old(gfree)
    {
      if lfree < gfree + n { return false, 0; }
      if mode.Global? { e, gfree := gfree, gfree + n; } else { lfree := lfree - n; e := lfree; }
      ok := true;
    }

    /** list2 of a constant: the chain of the type stays as it is. */
    method NewConstant(n: nat, ghost ls: seq<Link>, ghost cells: seq<nat>, ghost base: int, ghost g0: nat, ghost l0: nat) returns (ok: bool, e: nat)
      requires Has(ls, cells, base, g0, l0)
      modifies this`gfree, this`lfree, heap
      ensures ok ==> Has(ls, cells, base, g0, l0) && e + 1 < heap.Length && heap[e] == CONST_TAG && heap[e + 1] == n
      ensures ok <==> old(lfree - gfree) >= 2
      ensures ok ==> lfree - gfree == old(lfree - gfree) - 2
      ensures Frame(g0, l0)
    {
      hide Built;
      BuiltBounds(heap[..], ty, ls, cells, base, g0, l0, gfree, lfree);
      ghost var h, g, f := heap[..], gfree, lfree;
      ok, e := GetFree(2);
      if !ok { return; }
      heap[e], heap[e + 1] := CONST_TAG, n;
      BuiltLess(h, heap[..], ty, ls, cells, base, g0, l0, g, f, gfree, lfree);
    }

    /** list2 or list3 of the link and the type so far; false when the heap is full. */
    method List(l: Link, ghost ls: seq<Link>, ghost cells: seq<nat>, ghost base: int, ghost g0: nat, ghost l0: nat) returns (ok: bool, ghost cells': seq<nat>)
      requires Has(ls, cells, base, g0, l0)
      modifies this`gfree, this`lfree, this`ty, heap
      ensures ok ==> Has([l] + ls, cells', base, g0, l0)
      ensures ok <==> old(lfree - gfree) >= Cell(l)
      ensures ok ==> lfree - gfree == old(lfree - gfree) - Cell(l)
      ensures Frame(g0, l0)
    {
      hide Built;
      cells' := [];
      BuiltBounds(heap[..], ty, ls, cells, base, g0, l0, gfree, lfree);
      ghost var h, g, f := heap[..], gfree, lfree;
      var e: nat;
      ok, e := GetFree(Cell(l));
      if !ok { return; }
      heap[e], heap[e + 1] := Tag(l), ty;
      if l.Array? { heap[e + 2] := l.n; }
      BuiltMore(h, heap[..], ty, l, ls, cells, base, g0, l0, g, f, e, gfree, lfree);
      ty := e;
      return true, [e] + cells;
    }

    method Decl0(ghost d: Decl, ghost rest: seq<Token>, ghost base: int, ghost g0: nat, ghost l0: nat) returns (ok: bool, name: string, ghost cells: seq<nat>)
      requires pos <= |toks| && toks[pos..] == TokensOf(d) + rest && Stops(rest) && Allowed(d, mode) && Has([], [], base, g0, l0)
      modifies this`gfree, this`lfree, this`ty, this`pos, heap
      ensures ok ==> pos <= |toks| && toks[pos..] == rest && name == NameOf(d) && Has(Reversed(Links(d)), cells, base, g0, l0)
      ensures ok <==> old(lfree - gfree) >= Room(Links(d))
      ensures ok ==> lfree - gfree == old(lfree - gfree) - Room(Links(d))
      ensures Frame(g0, l0)
      decreases d, 1
    {
      hide Built; hide Reversed;
      StartOf(d, rest);
      assert pos < |toks| && toks[pos] == toks[pos..][0];
      if Sym().Mul? {
        assert toks[pos + 1..] == toks[pos..][1..] == TokensOf(d.d) + rest;
        pos := pos + 1;
        ok, name, cells := Decl0(d.d, rest, base, g0, l0);
        RoomStep(Links(d.d), Pointer, [], Links(d));
        RoomOne(Pointer);
        if !ok { return; }
        ghost var ls := Reversed(Links(d.d));
        ok, cells := List(Pointer, ls, cells, base, g0, l0);
        ReversedSnoc(Links(d.d), Pointer);
      } else {
        ok, name, cells := Decl1(d, rest, base, g0, l0);
      }
    }

    method Decl1(ghost d: Decl, ghost rest: seq<Token>, ghost base: int, ghost g0: nat, ghost l0: nat) returns (ok: bool, name: string, ghost cells: seq<nat>)
      requires d.Direct? && pos <= |toks| && toks[pos..] == TokensOf(d) + rest && Stops(rest) && Allowed(d, mode) && Has([], [], base, g0, l0)
      modifies this`gfree, this`lfree, this`ty, this`pos, heap
      ensures ok ==> pos <= |toks| && toks[pos..] == rest && name == NameOf(d) && Has(Reversed(Links(d)), cells, base, g0, l0)
      ensures ok <==> old(lfree - gfree) >= Room(Links(d))
      ensures ok ==> lfree - gfree == old(lfree - gfree) - Room(Links(d))
      ensures Frame(g0, l0)
      decreases d, 0
    {
      hide Built; hide Reversed; hide Room;
      ghost var after := PostTokens(d.post) + rest;
      StartOf(d, rest);
      assert pos < |toks| && toks[pos] == toks[pos..][0];
      ghost var first: seq<Link> := [];
      cells := [];
      if Sym().LPar? {
        ghost var d1 := d.head.d;
        ghost var more := [RPar] + after;
        assert toks[pos + 1..] == toks[pos..][1..] == TokensOf(d1) + more;
        pos := pos + 1;
        ok, name, cells := Decl0(d1, more, base, g0, l0);
        RoomAppend(Links(d1), LinksOf(d.post));
        if !ok { return; }
        assert pos < |toks| && toks[pos] == toks[pos..][0] == RPar;
        assert toks[pos + 1..] == toks[pos..][1..] == after;
        pos := pos + 1;
        first := Links(d1);
      } else {
        name := toks[pos].id;
        assert toks[pos + 1..] == toks[pos..][1..] == after;
        pos := pos + 1;
        ReversedNone();
        RoomNone();
      }
      assert Links(d) == first + LinksOf(d.post);
      RoomAppend(first, LinksOf(d.post));
      ok, cells := Suffixes(d.post, rest, first, cells, base, g0, l0);
    }

    /** The loop of decl1. */
    method Suffixes(ghost post: seq<Post>, ghost rest: seq<Token>, ghost first: seq<Link>, ghost cells0: seq<nat>, ghost base: int, ghost g0: nat, ghost l0: nat)
      returns (ok: bool, ghost cells: seq<nat>)
      requires pos <= |toks| && toks[pos..] == PostTokens(post) + rest && Stops(rest) && (forall p :: p in post ==> AllowedPost(p, mode))
      requires Has(Reversed(first), cells0, base, g0, l0)
      modifies this`gfree, this`lfree, this`ty, this`pos, heap
      ensures ok ==> pos <= |toks| && toks[pos..] == rest && Has(Reversed(first + LinksOf(post)), cells, base, g0, l0)
      ensures ok <==> old(lfree - gfree) >= Room(LinksOf(post))
      ensures ok ==> lfree - gfree == old(lfree - gfree) - Room(LinksOf(post))
      ensures Frame(g0, l0)
    {
      hide Built; hide Reversed; hide PostTokens; hide LinksOf; hide LinkOf; hide PostToken; hide AllowedPost; hide Room;
      RoomAppend(first, LinksOf(post));
      cells := cells0;
      ghost var left, ls := post, first;
      while true
        invariant pos <= |toks| && toks[pos..] == PostTokens(left) + rest && (forall p :: p in left ==> AllowedPost(p, mode))
        invariant Has(Reversed(ls), cells, base, g0, l0) && ls + LinksOf(left) == first + LinksOf(post)
        invariant lfree - gfree == old(lfree - gfree) + Room(first) - Room(ls)
        invariant Frame(g0, l0)
        decreases |left|
      {
        SuffixStart(left, rest);
        LinksStep(left);
        assert pos < |toks| ==> toks[pos] == toks[pos..][0];
        var s := Sym();
        if !(s.LBra? || s.LPar?) {
          assert ls + [] == ls;
          BuiltBounds(heap[..], ty, Reversed(ls), cells, base, g0, l0, gfree, lfree);
          return true, cells;
        }
        assert left[0] in left;
        ghost var link := LinkOf(left[0]);
        RoomStep(ls, link, LinksOf(left[1..]), first + LinksOf(post));
        RoomOne(link);
        var l;
        ok, l := Suffix(left[0], PostTokens(left[1..]) + rest, Reversed(ls), cells, base, g0, l0);
        if !ok { return; }
        ok, cells := List(l, Reversed(ls), cells, base, g0, l0);
        if !ok { return; }
        ReversedSnoc(ls, l);
        Assoc(ls, [l], LinksOf(left[1..]));
        ls, left := ls + [l], left[1..];
      }
    }

    /** One suffix and its link; the size of an array is a constant in the heap. */
    method Suffix(ghost p: Post, ghost more: seq<Token>, ghost ls: seq<Link>, ghost cells: seq<nat>, ghost base: int, ghost g0: nat, ghost l0: nat)
      returns (ok: bool, l: Link)
      requires AllowedPost(p, mode) && pos <= |toks| && toks[pos..] == PostToken(p) + more && Has(ls, cells, base, g0, l0)
      modifies this`gfree, this`lfree, this`pos, heap
      ensures ok <==> old(lfree - gfree) >= Constants(LinkOf(p))
      ensures ok ==> pos <= |toks| && toks[pos..] == more && l == LinkOf(p) && Has(ls, cells, base, g0, l0)
      ensures ok ==> lfree - gfree == old(lfree - gfree) - Constants(LinkOf(p))
      ensures Frame(g0, l0)
    {
      hide Built;
      BuiltBounds(heap[..], ty, ls, cells, base, g0, l0, gfree, lfree);
      assert pos < |toks| && toks[pos] == toks[pos..][0];
      if Sym().LPar? {
        Arguments(p, more);
        return true, Function;
      }
      assert pos + 1 < |toks| && toks[pos + 1] == toks[pos..][1];
      pos := pos + 1;
      if Sym().RBra? {
        assert toks[pos + 1..] == toks[pos - 1..][2..] == more;
        pos := pos + 1;
        return true, Pointer;
      }
      var e: nat;
      ok, e := NewConstant(Sym().n, ls, cells, base, g0, l0);
      if !ok { return false, Function; }
      assert toks[pos + 2..] == toks[pos - 1..][3..] == more;
      pos := pos + 2;
      l := Array(heap[e + 1]);
    }

    /** Parentheses after a name: empty, or adecl. */
    method Arguments(ghost p: Post, ghost rest: seq<Token>)
      requires (p.Call? || p.CallWith?) && AllowedPost(p, mode) && pos <= |toks| && toks[pos..] == PostToken(p) + rest
      modifies this`pos
      ensures pos <= |toks| && toks[pos..] == rest
    {
      hide NamesOf;
      assert toks[pos + 1..] == toks[pos..][1..];
      pos := pos + 1;
      assert pos < |toks| && toks[pos] == toks[pos..][0];
      if Sym().RPar? {
        if p.CallWith? { NamesStart(p.names, [RPar] + rest); Assoc(NamesOf(p.names), [RPar], rest); }
        assert toks[pos + 1..] == toks[pos..][1..] == rest;
        pos := pos + 1;
        return;
      }
      Assoc(NamesOf(p.names), [RPar], rest);
      Names(p.names, rest);
    }

    /** The loop of adecl. */
    method Names(ghost names0: seq<string>, ghost rest: seq<Token>)
      requires names0 != [] && pos <= |toks| && toks[pos..] == NamesOf(names0) + ([RPar] + rest)
      modifies this`pos
      ensures pos <= |toks| && toks[pos..] == rest
    {
      hide NamesOf;
      ghost var names := names0;
      while true
        invariant names != [] && pos <= |toks| && toks[pos..] == NamesOf(names) + ([RPar] + rest)
        decreases |names|
      {
        NamesStart(names, [RPar] + rest);
        assert toks[pos] == toks[pos..][0] && toks[pos + 1] == toks[pos..][1];
        assert toks[pos + 1..] == toks[pos..][1..];
        pos := pos + 1;
        if !Sym().Comma? { break; }
        assert toks[pos + 1..] == toks[pos..][1..];
        pos := pos + 1;
        names := names[1..];
      }
      assert toks[pos + 1..] == toks[pos..][1..] == rest;
      pos := pos + 1;
    }

    /** A declaration: the base type applied to the declarator, as a type in the heap. */
    method Declare(ghost d: Decl, ghost rest: seq<Token>) returns (ok: bool, name: string)
      requires pos <= |toks| && toks[pos..] == TokensOf(d) + rest && Stops(rest) && Allowed(d, mode)
      requires gfree <= lfree <= heap.Length && !(gfree <= ty < lfree)
      modifies this`gfree, this`lfree, this`ty, this`pos, heap
      ensures ok ==> pos <= |toks| && toks[pos..] == rest && name == NameOf(d) && IsType(heap[..], ty, TypeOf(d, Base), old(ty))
      ensures ok <==> old(lfree - gfree) >= Room(Links(d))
      ensures Frame(old(gfree), old(lfree))
    {
      hide Built; hide Reversed; hide IsType; hide Chain; hide Apart;
      var t := ty;
      ghost var g0, l0 := gfree, lfree;
      BuiltNothing(heap[..], t, gfree, lfree);
      ghost var cells;
      ok, name, cells := Decl0(d, rest, t, g0, l0);
      if !ok { return; }
      ghost var ls := Reversed(Links(d));
      ghost var h := heap[..];
      BuiltParts(h, ty, ls, cells, t, g0, l0, gfree, lfree);
      var r := Reverse(heap, ty, t, ls, cells);
      ty := r;
      ReversedTwice(Links(d));
      ChainIsType(heap[..], ty, Links(d), Reversed(cells), t);
      LinksAreType(d, Base);
      SecondsInside(h, heap[..], cells, g0, l0);
    }
  }

  lemma BuiltBounds(h: seq<int>, t: int, ls: seq<Link>, cells: seq<nat>, base: int, g0: nat, l0: nat, gfree: nat, lfree: nat)
    requires Built(h, t, ls, cells, base, g0, l0, gfree, lfree)
    ensures g0 <= gfree <= lfree <= l0 <= |h|
  {}

  lemma BuiltParts(h: seq<int>, t: int, ls: seq<Link>, cells: seq<nat>, base: int, g0: nat, l0: nat, gfree: nat, lfree: nat)
    requires Built(h, t, ls, cells, base, g0, l0, gfree, lfree)
    ensures Chain(h, t, ls, cells, base) && Apart(ls, cells, base)
    ensures forall i :: 0 <= i < |cells| ==> g0 <= cells[i] && cells[i] + 1 < l0
  {}

  lemma SecondsInside(h: seq<int>, h': seq<int>, cells: seq<nat>, g0: nat, l0: nat)
    requires OnlySeconds(h, h', cells) && forall i :: 0 <= i < |cells| ==> g0 <= cells[i] && cells[i] + 1 < l0
    ensures forall k :: 0 <= k < |h| && !(g0 <= k < l0) ==> h'[k] == h[k]
  {}

  lemma ReversedNone()
    ensures Reversed<Link>([]) == []
  {}

  lemma ReversedSnoc(ls: seq<Link>, l: Link)
    ensures Reversed(ls + [l]) == [l] + Reversed(ls)
  {
    ReversedAppend(ls, [l]);
    assert [l][1..] == [];
    assert Reversed([l]) == [l];
  }

  lemma StartOf(d: Decl, rest: seq<Token>)
    ensures var ts := TokensOf(d) + rest;
            && |ts| > 0
            && (d.Star? ==> ts[0] == Mul && ts[1..] == TokensOf(d.d) + rest)
            && (d.Direct? && d.head.Name? ==> ts[0] == Ident(d.head.id) && ts[1..] == PostTokens(d.post) + rest)
            && (d.Direct? && d.head.Paren? ==> ts[0] == LPar && ts[1..] == TokensOf(d.head.d) + ([RPar] + (PostTokens(d.post) + rest)))
  {
    if d.Star? { StartOf1(Mul, TokensOf(d.d), rest); }
    else if d.head.Name? {
      Assoc([Ident(d.head.id)], PostTokens(d.post), rest);
      StartOf1(Ident(d.head.id), PostTokens(d.post), rest);
    } else {
      var a, b := TokensOf(d.head.d), PostTokens(d.post);
      Assoc([LPar] + (a + [RPar]), b, rest);
      Assoc([LPar], a + [RPar], b + rest);
      Assoc(a, [RPar], b + rest);
      FirstOf(LPar, a + ([RPar] + (b + rest)));
    }
  }

  lemma StartOf1(t: Token, a: seq<Token>, rest: seq<Token>)
    ensures var ts := ([t] + a) + rest; |ts| > 0 && ts[0] == t && ts[1..] == a + rest
  {}

  lemma FirstOf(t: Token, a: seq<Token>)
    ensures var ts := [t] + a; |ts| > 0 && ts[0] == t && ts[1..] == a
  {}

  lemma SuffixStart(post: seq<Post>, rest: seq<Token>)
    requires Stops(rest)
    ensures var ts := PostTokens(post) + rest;
            && (post == [] ==> ts == rest)
            && (post != [] ==>
                  && ts == PostToken(post[0]) + (PostTokens(post[1..]) + rest) && |ts| > 0
                  && (post[0].Index? || post[0].Open? ==> ts[0] == LBra)
                  && (post[0].Call? || post[0].CallWith? ==> ts[0] == LPar))
  {
    hide PostToken;
    if post != [] {
      Assoc(PostToken(post[0]), PostTokens(post[1..]), rest);
      FirstToken(post[0], PostTokens(post[1..]) + rest);
    }
  }

  lemma FirstToken(p: Post, more: seq<Token>)
    ensures var ts := PostToken(p) + more; |ts| > 0 && ts[0] == if p.Index? || p.Open? then LBra else LPar
  {
    hide NamesOf;
  }

  lemma LinksStep(post: seq<Post>)
    ensures LinksOf(post) == if post == [] then [] else [LinkOf(post[0])] + LinksOf(post[1..])
  {}

  lemma NamesStart(names: seq<string>, rest: seq<Token>)
    requires names != [] && rest != [] && rest[0] == RPar
    ensures var ts := NamesOf(names) + rest;
            && |ts| > 1 && ts[0] == Ident(names[0])
            && (|names| == 1 ==> ts[1..] == rest)
            && (|names| > 1 ==> ts[1] == Comma && ts[1..][1..] == NamesOf(names[1..]) + rest)
  {
    if |names| > 1 {
      assert NamesOf(names) + rest == [Ident(names[0]), Comma] + (NamesOf(names[1..]) + rest);
    }
  }
}
