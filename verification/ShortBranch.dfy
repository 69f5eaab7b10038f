/** The 2-byte branches of a case group reach their label. */
module ShortBranch {
  import opened Machine
  import opened Engine
  import opened Statements

  predicate AllSized(code: seq<Instr>) { forall i :: 0 <= i < |code| ==> Sized(code[i]) }

  function Length(code: seq<Instr>): nat
    requires AllSized(code)
  {
    if code == [] then 0 else Bytes(code[0]) + Length(code[1..])
  }

  lemma {:induction false} TestsSized(ks: seq<int>, l: nat, fail: nat, n: int)
    requires |ks| > 0
    ensures AllSized(CaseTests(ks, l, fail, n))
    decreases |ks|
  {
    if |ks| > 1 { TestsSized(ks[..|ks| - 1], l, fail, n - 6); }
  }

  /** The compiler's byte count is exact once all branches to come are short. */
  lemma {:induction false} TestsLength(ks: seq<int>, l: nat, fail: nat)
    requires |ks| > 0 && 2 + 6 * |ks| - 6 <= 127
    ensures AllSized(CaseTests(ks, l, fail, 2 + 6 * |ks|))
    ensures Length(CaseTests(ks, l, fail, 2 + 6 * |ks|)) == 2 + 6 * |ks|
    decreases |ks|
  {
    TestsSized(ks, l, fail, 2 + 6 * |ks|);
    var t := CaseTests(ks, l, fail, 2 + 6 * |ks|);
    if |ks| == 1 {
      Length2(t[0], t[1], []);
      assert [t[0], t[1]] + [] == t;
    } else {
      var last := |ks| - 1;
      TestsLength(ks[..last], l, fail);
      Length2(t[0], t[1], CaseTests(ks[..last], l, fail, 2 + 6 * last));
    }
  }

  lemma Length2(i: Instr, j: Instr, rest: seq<Instr>)
    requires Sized(i) && Sized(j) && AllSized(rest)
    ensures AllSized([i, j] + rest) && Length([i, j] + rest) == Bytes(i) + Bytes(j) + Length(rest)
  {
    assert ([i, j] + rest)[1..] == [j] + rest;
    assert ([j] + rest)[1..] == rest;
  }

  /** Every short branch among the tests goes to the label after them, forward and by no
      more than a signed byte can hold. */
  lemma {:induction false} TestsReach(ks: seq<int>, l: nat, fail: nat, i: nat)
    requires |ks| > 0
    requires var t := CaseTests(ks, l, fail, 2 + 6 * |ks|); i < |t| && (t[i].ShortEq? || t[i].ShortJmp?)
    ensures var t := CaseTests(ks, l, fail, 2 + 6 * |ks|);
            t[i] == ShortEq(l) && AllSized(t[i + 1..]) && Length(t[i + 1..]) <= 127
    decreases |ks|
  {
    hide Length;
    var t := CaseTests(ks, l, fail, 2 + 6 * |ks|);
    if |ks| > 1 {
      var last := |ks| - 1;
      var rest := CaseTests(ks[..last], l, fail, 2 + 6 * last);
      TestsSized(ks[..last], l, fail, 2 + 6 * last);
      if i >= 2 {
        TestsReach(ks[..last], l, fail, i - 2);
        assert t[i] == rest[i - 2] && t[i + 1..] == rest[i - 1..];
      } else if 6 * last + 2 <= 127 {
        TestsLength(ks[..last], l, fail);
        assert t[2..] == rest;
      }
    }
  }

  /** The same for the whole group, whose label stands at its end, for any number of
      constants; `code` is everything between the branch and the label. */
  lemma CaseReach(ks: seq<int>, csl: nat, l: nat, k: bool, i: nat)
    requires |ks| > 0
    requires var c := CaseCode(ks, csl, l, k); i < |c| && (c[i].ShortEq? || c[i].ShortJmp?)
    ensures var c := CaseCode(ks, csl, l, k);
            && c[|c| - 1] == Label(l) && i < |c| - 1 && c[i].l == l
            && AllSized(c[i + 1..|c| - 1]) && Length(c[i + 1..|c| - 1]) <= 127
  {
    hide CaseTests; hide CaseCode; hide CaseJump; hide Length; hide AllSized;
    var c := CaseCode(ks, csl, l, k);
    var t := CaseTests(ks, l, l + 1, 2 + 6 * |ks|);
    var c1 := if k then [CaseJump(l, 2 + 6 * |ks|)] else [];
    var c2 := if csl != 0 then [Label(csl)] else [];
    var b := |c1| + |c2|;
    assert c == c1 + (c2 + (t + [Label(l)])) by { CaseIs(ks, csl, l, k); }
    Parts(c1, c2, t, Label(l), i);
    if b <= i {
      TestsReach(ks, l, l + 1, i - b);
    } else {
      assert i == 0 && k && c[0] == CaseJump(l, 2 + 6 * |ks|);
      ShortJump(l, 2 + 6 * |ks|);
      TestsLength(ks, l, l + 1);
      LengthLabel(csl, t);
      assert [] + t == t;
    }
  }

  lemma CaseIs(ks: seq<int>, csl: nat, l: nat, k: bool)
    requires |ks| > 0
    ensures CaseCode(ks, csl, l, k) == (if k then [CaseJump(l, 2 + 6 * |ks|)] else [])
                                       + ((if csl != 0 then [Label(csl)] else []) + (CaseTests(ks, l, l + 1, 2 + 6 * |ks|) + [Label(l)]))
  {
    hide CaseTests; hide CaseJump;
  }

  lemma ShortJump(l: nat, n: int)
    ensures CaseJump(l, n).ShortJmp? ==> n <= 127 && CaseJump(l, n).l == l
    ensures !CaseJump(l, n).ShortEq?
  {}

  /** What stands at i and between it and the last instruction. */
  lemma Parts(c1: seq<Instr>, c2: seq<Instr>, t: seq<Instr>, z: Instr, i: nat)
    requires i < |c1| + |c2| + |t| + 1
    ensures var c, b := c1 + (c2 + (t + [z])), |c1| + |c2|;
            && |c| == b + |t| + 1 && c[|c| - 1] == z
            && (b <= i < b + |t| ==> c[i] == t[i - b] && c[i + 1..|c| - 1] == t[i - b + 1..])
            && (i < |c1| ==> c[i] == c1[i]) && (|c1| <= i < b ==> c[i] == c2[i - |c1|])
            && (|c1| == 1 ==> c[1..|c| - 1] == c2 + t)
  {
    var c, b := c1 + (c2 + (t + [z])), |c1| + |c2|;
    assert c == (c1 + c2) + t + [z];
    assert c[..|c| - 1] == (c1 + c2) + t;
    if b <= i < b + |t| { assert c[i + 1..|c| - 1] == ((c1 + c2) + t)[i + 1..]; }
    if |c1| == 1 { assert c[1..|c| - 1] == (c1 + (c2 + t))[1..]; }
  }

  lemma LengthLabel(l: nat, t: seq<Instr>)
    requires AllSized(t)
    ensures AllSized([Label(l)] + t) && Length([Label(l)] + t) == Length(t)
  {
    assert ([Label(l)] + t)[1..] == t;
  }
}
