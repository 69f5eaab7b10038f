/** The fuel of the statements' meaning is only a bound on the rounds of loops. */
module Fuel {
  import opened Machine
  import opened Source
  import opened Statements

  /** A run that ends with some fuel ends the same way with more. */
  lemma FuelMore(s: Stmt, cx: Ctx, m: Memory, fuel: nat)
    requires !Run(s, cx, m, fuel).Timeout?
    ensures Run(s, cx, m, fuel + 1) == Run(s, cx, m, fuel)
    decreases fuel, StmtSize(s), 0
  {
    hide Eval; hide RunClauses; hide RunWhile; hide RunDo; hide RunFor;
    if s.Seq? { FuelSeq(s.s1, s.s2, cx, m, fuel); }
    if s.If? && Eval(s.c, cx, m).Val? && Eval(s.c, cx, m).v != 0 { FuelMore(s.s, cx, Eval(s.c, cx, m).m, fuel); }
    if s.IfElse? && Eval(s.c, cx, m).Val? {
      if Eval(s.c, cx, m).v != 0 { FuelMore(s.s1, cx, Eval(s.c, cx, m).m, fuel); } else { FuelMore(s.s2, cx, Eval(s.c, cx, m).m, fuel); }
    }
    if s.While? { FuelWhile(s.c, s.s, cx, m, fuel); }
    if s.WhileNull? { FuelWhile(s.c, Skip, cx, m, fuel); }
    if s.DoWhile? { FuelDo(s.s, s.c, cx, m, fuel); }
    if s.For? {
      if s.init.None? { FuelFor(s.cond, s.step, s.s, cx, m, fuel); }
      else if Eval(s.init.e, cx, m).Val? { FuelFor(s.cond, s.step, s.s, cx, Eval(s.init.e, cx, m).m, fuel); }
    }
    if s.Switch? && Eval(s.e, cx, m).Val? {
      var v := Eval(s.e, cx, m).v;
      FuelClauses(s.cs, v, !Matches(s.cs, v), false, cx, Eval(s.e, cx, m).m, fuel);
    }
  }

  lemma FuelSeq(s1: Stmt, s2: Stmt, cx: Ctx, m: Memory, fuel: nat)
    requires !Run(Seq(s1, s2), cx, m, fuel).Timeout?
    ensures Run(Seq(s1, s2), cx, m, fuel + 1) == Run(Seq(s1, s2), cx, m, fuel)
    decreases fuel, StmtSize(s1) + StmtSize(s2), 1
  {
    FuelMore(s1, cx, m, fuel);
    var f := Run(s1, cx, m, fuel);
    if f.Normal? { FuelMore(s2, cx, f.m, fuel); }
  }

  lemma FuelWhile(c: Expr, s: Stmt, cx: Ctx, m: Memory, fuel: nat)
    requires !RunWhile(c, s, cx, m, fuel).Timeout?
    ensures RunWhile(c, s, cx, m, fuel + 1) == RunWhile(c, s, cx, m, fuel)
    decreases fuel, StmtSize(s), 1
  {
    hide Eval; hide Run;
    var r := Eval(c, cx, m);
    if r.Val? && r.v != 0 {
      FuelMore(s, cx, r.m, fuel);
      var f := Run(s, cx, r.m, fuel);
      if GoesOn(f) && fuel > 0 { FuelWhile(c, s, cx, f.m, fuel - 1); }
    }
  }

  lemma FuelDo(s: Stmt, c: Expr, cx: Ctx, m: Memory, fuel: nat)
    requires !RunDo(s, c, cx, m, fuel).Timeout?
    ensures RunDo(s, c, cx, m, fuel + 1) == RunDo(s, c, cx, m, fuel)
    decreases fuel, StmtSize(s), 1
  {
    hide Eval; hide Run; hide RunDo;
    DoRound(s, c, cx, m, fuel);
    DoRound(s, c, cx, m, fuel + 1);
    FuelMore(s, cx, m, fuel);
    var f := Run(s, cx, m, fuel);
    if GoesOn(f) {
      var r := Eval(c, cx, f.m);
      if r.Val? && r.v != 0 && fuel > 0 { FuelDo(s, c, cx, r.m, fuel - 1); }
    }
  }

  /** One round of a do loop. */
  lemma DoRound(s: Stmt, c: Expr, cx: Ctx, m: Memory, fuel: nat)
    ensures var f := Run(s, cx, m, fuel);
            RunDo(s, c, cx, m, fuel) == Again(
            if !GoesOn(f) then Ended(f) else
            var r := Eval(c, cx, f.m);
            if r.Fault? then Bad else if r.v == 0 then Normal(r.m)
            else if fuel == 0 then Timeout(0) else RunDo(s, c, cx, r.m, fuel - 1))
  {
    hide Eval; hide Run;
  }

  lemma FuelFor(cond: Opt, step: Opt, s: Stmt, cx: Ctx, m: Memory, fuel: nat)
    requires !RunFor(cond, step, s, cx, m, fuel).Timeout?
    ensures RunFor(cond, step, s, cx, m, fuel + 1) == RunFor(cond, step, s, cx, m, fuel)
    decreases fuel, StmtSize(s), 1
  {
    hide EvalOpt; hide Run;
    var r := EvalOpt(cond, cx, m);
    if r.Val? && r.v != 0 {
      FuelMore(s, cx, r.m, fuel);
      var f := Run(s, cx, r.m, fuel);
      if GoesOn(f) {
        var r2 := EvalOpt(step, cx, f.m);
        if r2.Val? && fuel > 0 { FuelFor(cond, step, s, cx, r2.m, fuel - 1); }
      }
    }
  }

  lemma FuelClauses(cs: Clauses, v: Word, dflt: bool, running: bool, cx: Ctx, m: Memory, fuel: nat)
    requires !RunClauses(cs, v, dflt, running, cx, m, fuel).Timeout?
    ensures RunClauses(cs, v, dflt, running, cx, m, fuel + 1) == RunClauses(cs, v, dflt, running, cx, m, fuel)
    decreases fuel, ClausesSize(cs), 0
  {
    hide Run; hide Listed;
    if !cs.End? {
      var enters := if cs.Case? then running || (!dflt && Listed(cs.consts, v)) else running || dflt;
      if enters {
        FuelMore(cs.body, cx, m, fuel);
        var f := Run(cs.body, cx, m, fuel);
        if f.Normal? { FuelClauses(cs.next, v, dflt, true, cx, f.m, fuel); }
      } else {
        FuelClauses(cs.next, v, dflt, false, cx, m, fuel);
      }
    }
  }

  /** So all fuels that do not run out agree. */
  lemma {:induction false} FuelAgrees(s: Stmt, cx: Ctx, m: Memory, fuel: nat, more: nat)
    requires !Run(s, cx, m, fuel).Timeout?
    ensures Run(s, cx, m, fuel + more) == Run(s, cx, m, fuel)
    decreases more
  {
    hide Run;
    if more > 0 {
      FuelAgrees(s, cx, m, fuel, more - 1);
      FuelMore(s, cx, m, fuel + more - 1);
    }
  }

  /** A run that exceeds its fuel has begun more rounds than that. */
  lemma TimeoutRounds(s: Stmt, cx: Ctx, m: Memory, fuel: nat)
    ensures var f := Run(s, cx, m, fuel); f.Timeout? ==> f.rounds > fuel
    decreases fuel, StmtSize(s), 0
  {
    hide Eval; hide RunClauses; hide RunWhile; hide RunDo; hide RunFor;
    if s.Seq? {
      TimeoutRounds(s.s1, cx, m, fuel);
      var f := Run(s.s1, cx, m, fuel);
      if f.Normal? { TimeoutRounds(s.s2, cx, f.m, fuel); }
    }
    if s.If? && Eval(s.c, cx, m).Val? && Eval(s.c, cx, m).v != 0 { TimeoutRounds(s.s, cx, Eval(s.c, cx, m).m, fuel); }
    if s.IfElse? && Eval(s.c, cx, m).Val? {
      if Eval(s.c, cx, m).v != 0 { TimeoutRounds(s.s1, cx, Eval(s.c, cx, m).m, fuel); } else { TimeoutRounds(s.s2, cx, Eval(s.c, cx, m).m, fuel); }
    }
    if s.While? { WhileRounds(s.c, s.s, cx, m, fuel); }
    if s.WhileNull? { WhileRounds(s.c, Skip, cx, m, fuel); }
    if s.DoWhile? { DoRounds(s.s, s.c, cx, m, fuel); }
    if s.For? {
      if s.init.None? { ForRounds(s.cond, s.step, s.s, cx, m, fuel); }
      else if Eval(s.init.e, cx, m).Val? { ForRounds(s.cond, s.step, s.s, cx, Eval(s.init.e, cx, m).m, fuel); }
    }
    if s.Switch? && Eval(s.e, cx, m).Val? {
      var v := Eval(s.e, cx, m).v;
      ClausesRounds(s.cs, v, !Matches(s.cs, v), false, cx, Eval(s.e, cx, m).m, fuel);
    }
  }

  lemma WhileRounds(c: Expr, s: Stmt, cx: Ctx, m: Memory, fuel: nat)
    ensures var f := RunWhile(c, s, cx, m, fuel); f.Timeout? ==> f.rounds > fuel
    decreases fuel, StmtSize(s), 1
  {
    hide Eval; hide Run;
    var r := Eval(c, cx, m);
    if r.Val? && r.v != 0 {
      TimeoutRounds(s, cx, r.m, fuel);
      var f := Run(s, cx, r.m, fuel);
      if GoesOn(f) && fuel > 0 { WhileRounds(c, s, cx, f.m, fuel - 1); }
    }
  }

  lemma DoRounds(s: Stmt, c: Expr, cx: Ctx, m: Memory, fuel: nat)
    ensures var f := RunDo(s, c, cx, m, fuel); f.Timeout? ==> f.rounds > fuel
    decreases fuel, StmtSize(s), 1
  {
    hide Eval; hide Run; hide RunDo;
    DoRound(s, c, cx, m, fuel);
    TimeoutRounds(s, cx, m, fuel);
    var f := Run(s, cx, m, fuel);
    if GoesOn(f) {
      var r := Eval(c, cx, f.m);
      if r.Val? && r.v != 0 && fuel > 0 { DoRounds(s, c, cx, r.m, fuel - 1); }
    }
  }

  lemma ForRounds(cond: Opt, step: Opt, s: Stmt, cx: Ctx, m: Memory, fuel: nat)
    ensures var f := RunFor(cond, step, s, cx, m, fuel); f.Timeout? ==> f.rounds > fuel
    decreases fuel, StmtSize(s), 1
  {
    hide EvalOpt; hide Run;
    var r := EvalOpt(cond, cx, m);
    if r.Val? && r.v != 0 {
      TimeoutRounds(s, cx, r.m, fuel);
      var f := Run(s, cx, r.m, fuel);
      if GoesOn(f) {
        var r2 := EvalOpt(step, cx, f.m);
        if r2.Val? && fuel > 0 { ForRounds(cond, step, s, cx, r2.m, fuel - 1); }
      }
    }
  }

  lemma ClausesRounds(cs: Clauses, v: Word, dflt: bool, running: bool, cx: Ctx, m: Memory, fuel: nat)
    ensures var f := RunClauses(cs, v, dflt, running, cx, m, fuel); f.Timeout? ==> f.rounds > fuel
    decreases fuel, ClausesSize(cs), 0
  {
    hide Run; hide Listed;
    if !cs.End? {
      var enters := if cs.Case? then running || (!dflt && Listed(cs.consts, v)) else running || dflt;
      if enters {
        TimeoutRounds(cs.body, cx, m, fuel);
        var f := Run(cs.body, cx, m, fuel);
        if f.Normal? { ClausesRounds(cs.next, v, dflt, true, cx, f.m, fuel); }
      } else {
        ClausesRounds(cs.next, v, dflt, false, cx, m, fuel);
      }
    }
  }
}
