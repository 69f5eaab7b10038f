/**
  Dynamic binding in the Lisp interpreter: BIND saves the values of the parameters on the
  user stack and assigns the arguments, UNBIND restores them.  An atom is the address of a
  slot that holds the address of its record, which is $8000 or more; the record starts with
  the value.  The first word of a cell is below $8000 unless the cell is a number.
 */
module Binding {
  import opened Machine
  import opened Collector

  /** Where the records of the atoms are. */
  type Records = r: map<Word, Word> | Placed(r) witness map[NIL := (0xa000 as Word)]

  predicate Placed(r: map<Word, Word>) {
    NIL in r && (forall a :: a in r ==> a < CELTOP && r[a] >= 0x8000) && forall a, b :: a in r && b in r && r[a] == r[b] ==> a == b
  }

  /** The values, by record address. */
  type Values = map<Word, Word>

  predicate HoldsAll(v: Values, r: Records) { forall a :: a in r ==> r[a] in v }

  /** A word that names an atom of the table or a cell. */
  predicate Known(r: Records, x: Word) { x in r || IsCell(x) }

  ghost predicate Cells(g: Graph, r: Records) {
    |g.car| == CELLS && |g.cdr| == CELLS
    && forall i :: 0 <= i < CELLS && Pair(g, i) ==> Known(r, g.car[i]) && Known(r, g.cdr[i])
  }

  /** Whether `LDX ,X` yields a word below $8000: X is a cell that is not a number. */
  predicate IsPair(g: Graph, x: Word)
    requires |g.car| == CELLS
  {
    IsCell(x) && Pair(g, Index(x))
  }

  function First(g: Graph, r: Records, x: Word): Word
    requires |g.car| == CELLS && Known(r, x)
  {
    if IsCell(x) then g.car[Index(x)] else r[x]
  }

  lemma FirstTells(g: Graph, r: Records, x: Word)
    requires Cells(g, r) && Known(r, x)
    ensures First(g, r, x) < 0x8000 <==> IsPair(g, x)
  {}

  /** The parameter list ends after n pairs. */
  ghost predicate Ends(g: Graph, x: Word, n: nat)
    requires |g.car| == CELLS && |g.cdr| == CELLS
    decreases n
  {
    !IsPair(g, x) || (n > 0 && Ends(g, g.cdr[Index(x)], n - 1))
  }

  // ---------- what is bound to what ----------

  datatype Bound = Bound(atom: Word, value: Word)

  /** An atom other than NIL; anything else is passed over. */
  predicate Bindable(x: Word) { x < CELTOP && x != NIL }

  function One(x: Word, y: Word): seq<Bound> {
    if Bindable(x) then [Bound(x, y)] else []
  }

  function Arg(g: Graph, y: Word): Word
    requires |g.car| == CELLS
  {
    if IsPair(g, y) then g.car[Index(y)] else NIL
  }

  function Rest(g: Graph, y: Word): Word
    requires |g.car| == CELLS && |g.cdr| == CELLS
  {
    if IsPair(g, y) then g.cdr[Index(y)] else y
  }

  /** Parameters with their arguments, in order: NIL for missing arguments, all that is left
      for an atom at the end of the parameters. */
  ghost function Pairs(g: Graph, x: Word, y: Word, n: nat): seq<Bound>
    requires |g.car| == CELLS && |g.cdr| == CELLS && Ends(g, x, n)
    decreases n
  {
    if !IsPair(g, x) then One(x, y)
    else One(g.car[Index(x)], Arg(g, y)) + Pairs(g, g.cdr[Index(x)], Rest(g, y), n - 1)
  }

  /** How many elements of the parameter list are bound, the atom at its end not counted. */
  ghost function Listed(g: Graph, x: Word, n: nat): nat
    requires |g.car| == CELLS && |g.cdr| == CELLS && Ends(g, x, n)
    decreases n
  {
    if !IsPair(g, x) then 0
    else (if Bindable(g.car[Index(x)]) then 1 else 0) + Listed(g, g.cdr[Index(x)], n - 1)
  }

  ghost predicate Atoms(p: seq<Bound>, r: Records) { forall b :: b in p ==> b.atom in r }

  ghost predicate Binds(p: seq<Bound>, r: Records, rec: Word) { exists b :: b in p && b.atom in r && r[b.atom] == rec }

  // ---------- binding and unbinding on values ----------

  datatype State = State(value: Values, ustack: seq<Word>)

  /** Save the value of one atom and assign it. */
  function BindOne(r: Records, b: Bound, s: State): State
    requires b.atom in r && HoldsAll(s.value, r)
  {
    var rec := r[b.atom];
    State(s.value[rec := b.value], [rec, s.value[rec]] + s.ustack)
  }

  ghost function BindAll(r: Records, p: seq<Bound>, s: State): (t: State)
    requires Atoms(p, r) && HoldsAll(s.value, r)
    ensures HoldsAll(t.value, r)
    decreases |p|
  {
    if p == [] then s else BindOne(r, p[|p| - 1], BindAll(r, p[..|p| - 1], s))
  }

  /** The top of the stack is a frame: pairs of record and value above a word below $8000. */
  ghost predicate Framed(u: seq<Word>)
    decreases |u|
  {
    |u| > 0 && (u[0] < 0x8000 || (|u| > 1 && Framed(u[2..])))
  }

  ghost function Undo(s: State): State
    requires Framed(s.ustack)
    decreases |s.ustack|
  {
    if s.ustack[0] < 0x8000 then State(s.value, s.ustack[1..])
    else Undo(State(s.value[s.ustack[0] := s.ustack[1]], s.ustack[2..]))
  }

  /** The values of bound atoms from v0, all others from v. */
  ghost function Restored(r: Records, p: seq<Bound>, v0: Values, v: Values): Values
    requires HoldsAll(v0, r)
  {
    map rec | rec in v :: if Binds(p, r, rec) then v0[rec] else v[rec]
  }

  /** UNBIND after BIND: the stack is back, and so are the values of all bound atoms, whatever
      was assigned in between. */
  lemma {:induction false} UndoBind(r: Records, p: seq<Bound>, v0: Values, u0: seq<Word>, v: Values)
    requires Atoms(p, r) && HoldsAll(v0, r) && HoldsAll(v, r)
    ensures var u := BindAll(r, p, State(v0, [NIL] + u0)).ustack;
            Framed(u) && Undo(State(v, u)) == State(Restored(r, p, v0, v), u0)
    decreases |p|
  {
    hide Restored; hide Placed; hide Binds;
    var s0 := State(v0, [NIL] + u0);
    if p == [] {
      UndoNothing(r, v0, u0, v);
    } else {
      var q, b := p[..|p| - 1], p[|p| - 1];
      assert p == q + [b];
      var s1 := BindAll(r, q, s0);
      var rec := r[b.atom];
      RecordAddress(r, b.atom);
      var u := BindAll(r, p, s0).ustack;
      assert u[0] == rec && u[1] == s1.value[rec] && u[2..] == s1.ustack;
      var v1 := v[rec := s1.value[rec]];
      UndoBind(r, q, v0, u0, v1);
      RestoredStep(r, q, b, v0, u0, v);
    }
  }

  lemma RecordAddress(r: Records, a: Word)
    requires a in r
    ensures r[a] >= 0x8000
  {}

  lemma UndoNothing(r: Records, v0: Values, u0: seq<Word>, v: Values)
    requires HoldsAll(v0, r)
    ensures var u := BindAll(r, [], State(v0, [NIL] + u0)).ustack;
            Framed(u) && Undo(State(v, u)) == State(Restored(r, [], v0, v), u0)
  {
    assert ([NIL] + u0)[1..] == u0;
    assert Restored(r, [], v0, v) == v;
  }

  /** Restoring the last atom first makes no difference. */
  lemma RestoredStep(r: Records, q: seq<Bound>, b: Bound, v0: Values, u0: seq<Word>, v: Values)
    requires Atoms(q, r) && b.atom in r && HoldsAll(v0, r) && HoldsAll(v, r)
    ensures var rec := r[b.atom];
            var v1 := v[rec := BindAll(r, q, State(v0, [NIL] + u0)).value[rec]];
            Restored(r, q, v0, v1) == Restored(r, q + [b], v0, v)
  {
    var rec := r[b.atom];
    BindsLast(r, q, b);
    if !Binds(q, r, rec) { Unbound(r, q, State(v0, [NIL] + u0), rec); }
  }

  lemma BindsLast(r: Records, q: seq<Bound>, b: Bound)
    requires b.atom in r
    ensures forall rec :: Binds(q + [b], r, rec) <==> Binds(q, r, rec) || rec == r[b.atom]
  {
    forall rec ensures Binds(q + [b], r, rec) <==> Binds(q, r, rec) || rec == r[b.atom] {
      if Binds(q, r, rec) {
        var c :| c in q && c.atom in r && r[c.atom] == rec;
        assert c in q + [b];
      }
      assert b in q + [b];
    }
  }

  /** Atoms that are not bound keep their values. */
  lemma {:induction false} Unbound(r: Records, p: seq<Bound>, s: State, rec: Word)
    requires Atoms(p, r) && HoldsAll(s.value, r) && rec in s.value && !Binds(p, r, rec)
    ensures rec in BindAll(r, p, s).value && BindAll(r, p, s).value[rec] == s.value[rec]
    decreases |p|
  {
    if p != [] {
      var q, b := p[..|p| - 1], p[|p| - 1];
      assert b in p;
      forall c | c in q ensures c in p {}
      Unbound(r, q, s, rec);
    }
  }

  // ---------- parameters and arguments, on the words of the two lists ----------

  /** The list x without its first i elements; what ends it stays. */
  ghost function At(g: Graph, x: Word, i: nat): Word
    requires |g.car| == CELLS && |g.cdr| == CELLS
    decreases i
  {
    if i == 0 || !IsPair(g, x) then x else At(g, g.cdr[Index(x)], i - 1)
  }

  /** a is a parameter from the i-th on, or the atom that ends the parameters. */
  ghost predicate NamedFrom(g: Graph, x: Word, n: nat, i: nat, a: Word)
    requires |g.car| == CELLS && |g.cdr| == CELLS
  {
    a == At(g, x, n) || exists j: nat :: i <= j < n && IsPair(g, At(g, x, j)) && g.car[Index(At(g, x, j))] == a
  }

  /** The i-th parameter, unless a later one repeats it, has the i-th argument, or NIL when there
      are fewer. */
  ghost predicate GivenAt(g: Graph, r: Records, x: Word, y: Word, n: nat, v: Values, i: nat)
    requires |g.car| == CELLS && |g.cdr| == CELLS
  {
    IsPair(g, At(g, x, i)) ==>
      var a := g.car[Index(At(g, x, i))];
      a < CELTOP && a != NIL && !NamedFrom(g, x, n, i + 1, a) ==>
        a in r && r[a] in v && v[r[a]] == if IsPair(g, At(g, y, i)) then g.car[Index(At(g, y, i))] else NIL
  }

  /** An atom at the end of i parameters has the list of the other arguments. */
  ghost predicate RestGiven(g: Graph, r: Records, x: Word, y: Word, v: Values, i: nat)
    requires |g.car| == CELLS && |g.cdr| == CELLS
  {
    !IsPair(g, At(g, x, i)) && (forall j: nat :: j < i ==> IsPair(g, At(g, x, j))) ==>
      var a := At(g, x, i);
      a < CELTOP && a != NIL ==> a in r && r[a] in v && v[r[a]] == At(g, y, i)
  }

  /** Every parameter has its argument, and other atoms are as in v0. */
  ghost predicate Given(g: Graph, r: Records, x: Word, y: Word, n: nat, v0: Values, v: Values)
    requires |g.car| == CELLS && |g.cdr| == CELLS
  {
    && (forall i: nat :: GivenAt(g, r, x, y, n, v, i))
    && (forall i: nat :: RestGiven(g, r, x, y, v, i))
    && (forall a :: a in r && !NamedFrom(g, x, n, 0, a) ==> r[a] in v0 && r[a] in v && v[r[a]] == v0[r[a]])
  }

  lemma {:induction false} BindAppend(r: Records, p: seq<Bound>, q: seq<Bound>, s: State)
    requires Atoms(p, r) && Atoms(q, r) && HoldsAll(s.value, r)
    ensures Atoms(p + q, r) && BindAll(r, p + q, s) == BindAll(r, q, BindAll(r, p, s))
    decreases |q|
  {
    if q == [] {
      assert p + q == p;
    } else {
      BindAppend(r, p, q[..|q| - 1], s);
      assert (p + q)[..|p + q| - 1] == p + q[..|q| - 1];
    }
  }

  /** BIND gives every parameter its argument. */
  lemma {:induction false} BindGives(g: Graph, r: Records, x: Word, y: Word, n: nat, s: State)
    requires Cells(g, r) && Known(r, x) && Known(r, y) && Ends(g, x, n) && HoldsAll(s.value, r)
    ensures Atoms(Pairs(g, x, y, n), r) && Given(g, r, x, y, n, s.value, BindAll(r, Pairs(g, x, y, n), s).value)
    decreases n
  {
    hide BindAll; hide Given;
    PairsAtoms(g, r, x, y, n);
    if IsPair(g, x) {
      BindTurn(g, r, x, y, n);
      var x', y', b := g.cdr[Index(x)], Rest(g, y), One(g.car[Index(x)], Arg(g, y));
      var s1 := BindAll(r, b, s);
      BindOneGives(r, g.car[Index(x)], Arg(g, y), s);
      BindGives(g, r, x', y', n - 1, s1);
      BindAppend(r, b, Pairs(g, x', y', n - 1), s);
      GivenMore(g, r, x, y, n, s.value, s1.value, BindAll(r, Pairs(g, x, y, n), s).value);
    } else {
      BindOneGives(r, x, y, s);
      GivenRest(g, r, x, y, n, s.value, BindAll(r, Pairs(g, x, y, n), s).value);
    }
  }

  lemma BindOneGives(r: Records, a: Word, y: Word, s: State)
    requires HoldsAll(s.value, r) && (Bindable(a) ==> a in r)
    ensures Atoms(One(a, y), r)
    ensures var v := BindAll(r, One(a, y), s).value;
            (Bindable(a) ==> r[a] in v && v[r[a]] == y) && forall c :: c in r && (c != a || !Bindable(a)) ==> v[r[c]] == s.value[r[c]]
  {
    if Bindable(a) { assert One(a, y)[..0] == []; }
  }

  lemma GivenRest(g: Graph, r: Records, x: Word, y: Word, n: nat, v0: Values, v: Values)
    requires |g.car| == CELLS && |g.cdr| == CELLS && !IsPair(g, x)
    requires x < CELTOP && x != NIL ==> x in r && r[x] in v && v[r[x]] == y
    requires forall c :: c in r && (c != x || !Bindable(x)) ==> r[c] in v0 && r[c] in v && v[r[c]] == v0[r[c]]
    ensures Given(g, r, x, y, n, v0, v)
  {
    forall i: nat ensures At(g, x, i) == x {}
    forall i: nat ensures RestGiven(g, r, x, y, v, i) { assert i > 0 ==> !IsPair(g, At(g, x, 0)); }
  }

  lemma AtNext(g: Graph, x: Word, i: nat)
    requires |g.car| == CELLS && |g.cdr| == CELLS
    ensures At(g, x, i + 1) == At(g, Rest(g, x), i)
  {}

  lemma NamedNext(g: Graph, x: Word, n: nat, i: nat, a: Word)
    requires |g.car| == CELLS && |g.cdr| == CELLS && n > 0
    ensures NamedFrom(g, x, n, i + 1, a) <==> NamedFrom(g, Rest(g, x), n - 1, i, a)
  {
    hide Index; hide At; hide Rest;
    var x' := Rest(g, x);
    AtNext(g, x, n - 1);
    forall j: nat ensures At(g, x, j + 1) == At(g, x', j) { AtNext(g, x, j); }
    if NamedFrom(g, x, n, i + 1, a) && a != At(g, x, n) {
      var j: nat :| i + 1 <= j < n && IsPair(g, At(g, x, j)) && g.car[Index(At(g, x, j))] == a;
      assert IsPair(g, At(g, x', j - 1)) && At(g, x, j - 1 + 1) == At(g, x', j - 1);
    }
    if NamedFrom(g, x', n - 1, i, a) && a != At(g, x', n - 1) {
      var j: nat :| i <= j < n - 1 && IsPair(g, At(g, x', j)) && g.car[Index(At(g, x', j))] == a;
      assert IsPair(g, At(g, x, j + 1));
    }
  }

  /** One parameter more in front. */
  lemma GivenMore(g: Graph, r: Records, x: Word, y: Word, n: nat, v0: Values, v1: Values, v: Values)
    requires |g.car| == CELLS && |g.cdr| == CELLS && IsPair(g, x) && n > 0
    requires Given(g, r, Rest(g, x), Rest(g, y), n - 1, v1, v)
    requires var a := g.car[Index(x)];
             && (Bindable(a) ==> a in r && r[a] in v1 && v1[r[a]] == Arg(g, y))
             && (forall c :: c in r && (c != a || !Bindable(a)) ==> r[c] in v0 && r[c] in v1 && v1[r[c]] == v0[r[c]])
    ensures Given(g, r, x, y, n, v0, v)
  {
    hide NamedFrom; hide GivenAt; hide RestGiven; hide Index; hide Arg; hide Rest; hide At; hide Placed;
    var x', y', a := Rest(g, x), Rest(g, y), g.car[Index(x)];
    forall i: nat ensures GivenAt(g, r, x, y, n, v, i) {
      if i == 0 {
        NamedNext(g, x, n, 0, a);
        FirstGiven(g, r, x, y, n, v);
      } else {
        assert GivenAt(g, r, x', y', n - 1, v, i - 1);
        NextGiven(g, r, x, y, n, v, i - 1);
      }
    }
    forall i: nat ensures RestGiven(g, r, x, y, v, i) {
      if i > 0 { assert RestGiven(g, r, x', y', v, i - 1); }
      NextRest(g, r, x, y, v, i);
    }
    forall c | c in r && !NamedFrom(g, x, n, 0, c) ensures r[c] in v0 && r[c] in v && v[r[c]] == v0[r[c]] {
      NamedFirst(g, x, n, c);
    }
  }

  lemma NamedFirst(g: Graph, x: Word, n: nat, c: Word)
    requires |g.car| == CELLS && |g.cdr| == CELLS && IsPair(g, x) && n > 0 && !NamedFrom(g, x, n, 0, c)
    ensures c != g.car[Index(x)] && !NamedFrom(g, Rest(g, x), n - 1, 0, c)
  {
    NamedNext(g, x, n, 0, c);
    assert At(g, x, 0) == x;
  }

  lemma FirstGiven(g: Graph, r: Records, x: Word, y: Word, n: nat, v: Values)
    requires |g.car| == CELLS && |g.cdr| == CELLS && IsPair(g, x)
    requires var a := g.car[Index(x)];
             Bindable(a) && !NamedFrom(g, x, n, 1, a) ==> a in r && r[a] in v && v[r[a]] == Arg(g, y)
    ensures GivenAt(g, r, x, y, n, v, 0)
  {
    hide NamedFrom;
    assert At(g, x, 0) == x && At(g, y, 0) == y;
  }

  lemma NextGiven(g: Graph, r: Records, x: Word, y: Word, n: nat, v: Values, i: nat)
    requires |g.car| == CELLS && |g.cdr| == CELLS && n > 0 && GivenAt(g, r, Rest(g, x), Rest(g, y), n - 1, v, i)
    ensures GivenAt(g, r, x, y, n, v, i + 1)
  {
    hide NamedFrom; hide Rest; hide At; hide Index;
    AtNext(g, x, i);
    AtNext(g, y, i);
    if IsPair(g, At(g, x, i + 1)) { NamedNext(g, x, n, i + 1, g.car[Index(At(g, x, i + 1))]); }
  }

  lemma NextRest(g: Graph, r: Records, x: Word, y: Word, v: Values, i: nat)
    requires |g.car| == CELLS && |g.cdr| == CELLS && IsPair(g, x)
    requires i > 0 ==> RestGiven(g, r, Rest(g, x), Rest(g, y), v, i - 1)
    ensures RestGiven(g, r, x, y, v, i)
  {
    hide IsPair; hide Rest; hide Index;
    if i == 0 {
      assert At(g, x, 0) == x;
    } else {
      hide At;
      AtNext(g, x, i - 1);
      AtNext(g, y, i - 1);
      forall j: nat ensures At(g, Rest(g, x), j) == At(g, x, j + 1) { AtNext(g, x, j); }
    }
  }

  // ---------- any nesting ----------

  /** Programs as far as binding goes: assignments to records, and calls that bind, run a
      body and unbind. */
  datatype Program =
    | Done
    | Assign(rec: Word, value: Word, next: Program)
    | Call(x: Word, y: Word, n: nat, body: Program, next: Program)

  ghost predicate Fine(g: Graph, r: Records, c: Program)
    requires Cells(g, r)
  {
    match c
    case Done => true
    case Assign(_, _, next) => Fine(g, r, next)
    case Call(x, y, n, body, next) => Known(r, x) && Known(r, y) && Ends(g, x, n) && Fine(g, r, body) && Fine(g, r, next)
  }

  lemma {:induction false} PairsAtoms(g: Graph, r: Records, x: Word, y: Word, n: nat)
    requires Cells(g, r) && Known(r, x) && Ends(g, x, n)
    ensures Atoms(Pairs(g, x, y, n), r)
    decreases n
  {
    if IsPair(g, x) { PairsAtoms(g, r, g.cdr[Index(x)], Rest(g, y), n - 1); }
  }

  /** With the stack, as the interpreter does it. */
  ghost function Run(g: Graph, r: Records, c: Program, s: State): (t: State)
    requires Cells(g, r) && Fine(g, r, c) && HoldsAll(s.value, r)
    ensures HoldsAll(t.value, r)
    decreases c
  {
    match c
    case Done => s
    case Assign(rec, w, next) => Run(g, r, next, s.(value := s.value[rec := w]))
    case Call(x, y, n, body, next) =>
      PairsAtoms(g, r, x, y, n);
      var p := Pairs(g, x, y, n);
      var s1 := BindAll(r, p, State(s.value, [NIL] + s.ustack));
      var s2 := Run(g, r, body, s1);
      if !Framed(s2.ustack) then s else
      UndoHolds(r, s2);
      Run(g, r, next, Undo(s2))
  }

  lemma {:induction false} UndoHolds(r: Records, s: State)
    requires Framed(s.ustack) && HoldsAll(s.value, r)
    ensures HoldsAll(Undo(s).value, r)
    decreases |s.ustack|
  {
    if s.ustack[0] >= 0x8000 { UndoHolds(r, State(s.value[s.ustack[0] := s.ustack[1]], s.ustack[2..])); }
  }

  /** Without a stack: what dynamic scope means. */
  ghost function Meaning(g: Graph, r: Records, c: Program, v: Values): (t: Values)
    requires Cells(g, r) && Fine(g, r, c) && HoldsAll(v, r)
    ensures HoldsAll(t, r)
    decreases c
  {
    match c
    case Done => v
    case Assign(rec, w, next) => Meaning(g, r, next, v[rec := w])
    case Call(x, y, n, body, next) =>
      PairsAtoms(g, r, x, y, n);
      var p := Pairs(g, x, y, n);
      var v2 := Meaning(g, r, body, BindAll(r, p, State(v, [])).value);
      Meaning(g, r, next, Restored(r, p, v, v2))
  }

  lemma {:induction false} ValuesAlone(r: Records, p: seq<Bound>, v: Values, u: seq<Word>, u': seq<Word>)
    requires Atoms(p, r) && HoldsAll(v, r)
    ensures BindAll(r, p, State(v, u)).value == BindAll(r, p, State(v, u')).value
    decreases |p|
  {
    if p != [] { ValuesAlone(r, p[..|p| - 1], v, u, u'); }
  }

  lemma RestoredHolds(r: Records, p: seq<Bound>, v0: Values, v: Values)
    requires HoldsAll(v0, r) && HoldsAll(v, r)
    ensures HoldsAll(Restored(r, p, v0, v), r)
  {}

  /** Any program leaves the user stack as it was and the values that dynamic scope says. */
  lemma {:induction false} ScopesNest(g: Graph, r: Records, c: Program, s: State)
    requires Cells(g, r) && Fine(g, r, c) && HoldsAll(s.value, r)
    ensures Run(g, r, c, s) == State(Meaning(g, r, c, s.value), s.ustack)
    decreases c
  {
    hide BindAll; hide Undo; hide Restored; hide Framed;
    match c
    case Done =>
    case Assign(rec, w, next) => ScopesNest(g, r, next, s.(value := s.value[rec := w]));
    case Call(x, y, n, body, next) =>
      PairsAtoms(g, r, x, y, n);
      var p := Pairs(g, x, y, n);
      var s1 := BindAll(r, p, State(s.value, [NIL] + s.ustack));
      ValuesAlone(r, p, s.value, [NIL] + s.ustack, []);
      ScopesNest(g, r, body, s1);
      var v2 := Meaning(g, r, body, s1.value);
      UndoBind(r, p, s.value, s.ustack, v2);
      RestoredHolds(r, p, s.value, v2);
      ScopesNest(g, r, next, State(Restored(r, p, s.value, v2), s.ustack));
  }

  // ---------- the interpreter ----------

  class Interpreter {
    var value: Values
    var ustack: seq<Word>      // the last word pushed first
    const g: Graph
    const r: Records
    const room: nat            // words that the user stack may hold before BIND complains

    ghost predicate Valid()
      reads this
    {
      Cells(g, r) && HoldsAll(value, r)
    }

    ghost function Now(): State
      reads this
    {
      State(value, ustack)
    }

    constructor (g: Graph, r: Records, value: Values, room: nat)
      requires Cells(g, r) && HoldsAll(value, r)
      ensures Valid() && this.g == g && this.r == r && this.value == value && ustack == [] && this.room == room
    {
      this.g, this.r, this.value, ustack, this.room := g, r, value, [], room;
    }

    /** BINDA: bind the atom X to Y. */
    method BindAtom(x: Word, y: Word)
      requires Valid() && Known(r, x)
      modifies this
      ensures |ustack| == |old(ustack)| + if Bindable(x) then 2 else 0
      ensures Valid() && Now() == (if One(x, y) == [] then old(Now()) else BindOne(r, Bound(x, y), old(Now())))
    {
      if !Bindable(x) { return; }
      var rec := r[x];
      ustack := [rec, value[rec]] + ustack;
      value := value[rec := y];
    }

    /** BIND: parameters X, arguments Y; false when the user stack is full. */
    method Bind(x: Word, y: Word, ghost n: nat) returns (ok: bool)
      requires Valid() && Known(r, x) && Known(r, y) && Ends(g, x, n)
      modifies this
      ensures Valid()
      ensures ok ==> Atoms(Pairs(g, x, y, n), r) && Now() == BindAll(r, Pairs(g, x, y, n), State(old(value), [NIL] + old(ustack)))
      ensures ok ==> Given(g, r, x, y, n, old(value), value)
      ensures ok <==> |old(ustack)| + 1 + 2 * Listed(g, x, n) <= room
    {
      hide BindAll; hide Known; hide Pairs; hide Listed; hide Given; hide Bindable; hide Ends; hide IsPair; hide First;
      hide Atoms; hide One; hide HoldsAll; hide BindOne;
      ghost var s0 := State(value, [NIL] + ustack);
      PairsAtoms(g, r, x, y, n);
      ustack := [NIL] + ustack;
      var p, q := x, y;
      ghost var done: seq<Bound>, k := [], n;
      BindNone(r, s0);
      assert [] + Pairs(g, x, y, n) == Pairs(g, x, y, n);
      while true
        invariant Valid() && Known(r, p) && Known(r, q) && 0 <= k <= n && Ends(g, p, k) && Atoms(done, r)
        invariant done + Pairs(g, p, q, k) == Pairs(g, x, y, n) && Now() == BindAll(r, done, s0)
        invariant |ustack| + 2 * Listed(g, p, k) == |old(ustack)| + 1 + 2 * Listed(g, x, n)
        decreases k
      {
        if |ustack| > room { return false; }
        BindTurn(g, r, p, q, k);
        if First(g, r, p) >= 0x8000 {
          BindMore(r, done, One(p, q), s0);
          BindAtom(p, q);
          BindGives(g, r, x, y, n, s0);
          return true;
        }
        var a := First(g, r, p);
        var b := NIL;
        BindMore(r, done, One(a, Arg(g, q)), s0);
        done := done + One(a, Arg(g, q));
        if First(g, r, q) < 0x8000 {
          b := First(g, r, q);
          BindAtom(a, b);
          q := g.cdr[Index(q)];
        } else {
          BindAtom(a, b);
        }
        p := g.cdr[Index(p)];
        k := k - 1;
      }
    }

    /** UNBIND. */
    method Unbind()
      requires Valid() && Framed(ustack)
      modifies this
      ensures Valid() && Now() == Undo(old(Now()))
    {
      while true
        invariant Valid() && Framed(ustack) && Undo(Now()) == Undo(old(Now()))
        decreases |ustack|
      {
        var x := ustack[0];
        if x < 0x8000 { ustack := ustack[1..]; return; }
        UndoHolds(r, Now());
        value := value[x := ustack[1]];
        ustack := ustack[2..];
      }
    }
  }

  lemma BindNone(r: Records, s: State)
    requires HoldsAll(s.value, r)
    ensures Atoms([], r) && BindAll(r, [], s) == s
  {}

  /** One turn of BIND's loop, seen from its list of pairs. */
  lemma BindTurn(g: Graph, r: Records, p: Word, q: Word, k: nat)
    requires Cells(g, r) && Known(r, p) && Known(r, q) && Ends(g, p, k)
    ensures First(g, r, p) < 0x8000 <==> IsPair(g, p)
    ensures IsPair(g, p) ==>
              && k > 0 && IsCell(p) && Known(r, First(g, r, p)) && Known(r, g.cdr[Index(p)]) && Ends(g, g.cdr[Index(p)], k - 1)
              && Listed(g, p, k) == (if Bindable(First(g, r, p)) then 1 else 0) + Listed(g, g.cdr[Index(p)], k - 1)
              && Pairs(g, p, q, k) == One(First(g, r, p), Arg(g, q)) + Pairs(g, g.cdr[Index(p)], Rest(g, q), k - 1)
              && |One(First(g, r, p), Arg(g, q))| <= 1 && Atoms(One(First(g, r, p), Arg(g, q)), r)
              && (One(First(g, r, p), Arg(g, q)) != [] ==> One(First(g, r, p), Arg(g, q))[0] == Bound(First(g, r, p), Arg(g, q)))
    ensures !IsPair(g, p) ==>
              && Listed(g, p, k) == 0
              && Pairs(g, p, q, k) == One(p, q) && |One(p, q)| <= 1 && Atoms(One(p, q), r)
              && (One(p, q) != [] ==> One(p, q)[0] == Bound(p, q))
    ensures if First(g, r, q) < 0x8000 then IsCell(q) && Arg(g, q) == First(g, r, q) && Rest(g, q) == g.cdr[Index(q)] && Known(r, g.cdr[Index(q)])
            else Arg(g, q) == NIL && Rest(g, q) == q
  {
    FirstTells(g, r, p);
    FirstTells(g, r, q);
    if IsPair(g, p) { CellParts(g, r, p); }
    if IsPair(g, q) { CellParts(g, r, q); }
  }

  lemma CellParts(g: Graph, r: Records, x: Word)
    requires Cells(g, r) && IsPair(g, x) && Known(r, x)
    ensures Known(r, g.car[Index(x)]) && Known(r, g.cdr[Index(x)]) && First(g, r, x) == g.car[Index(x)]
  {}

  lemma BindMore(r: Records, p: seq<Bound>, q: seq<Bound>, s: State)
    requires Atoms(p, r) && HoldsAll(s.value, r) && |q| <= 1 && Atoms(q, r)
    ensures Atoms(p + q, r)
    ensures BindAll(r, p + q, s) == if q == [] then BindAll(r, p, s) else BindOne(r, q[0], BindAll(r, p, s))
  {
    if q == [] { assert p + q == p; }
    else {
      assert q[0] in q;
      assert (p + q)[..|p|] == p && (p + q)[|p|] == q[0];
    }
  }
}
