/**
  Running a whole program: a sequence of instructions with a program counter and labels.
  Code addresses are positions in the sequence.
 */
module Program {
  import opened Machine
  import opened Engine

  predicate Marks(i: Instr, l: nat) { (i.Label? || i.Equ?) && i.l == l }

  /** Where a label is introduced, by itself or by EQU; |prog| when nowhere. */
  function Intro(prog: seq<Instr>, l: nat): (k: nat)
    ensures k <= |prog|
    ensures k < |prog| ==> Marks(prog[k], l)
    ensures forall i :: 0 <= i < k ==> !Marks(prog[i], l)
  {
    if prog == [] || Marks(prog[0], l) then 0 else 1 + Intro(prog[1..], l)
  }

  function Target(prog: seq<Instr>, l: nat): nat {
    var k := Intro(prog, l);
    if k < |prog| && prog[k].Equ? then Intro(prog, prog[k].target) else k
  }

  /** No label is introduced twice. */
  ghost predicate Unique(prog: seq<Instr>) {
    forall i, j, l: nat :: 0 <= i < |prog| && 0 <= j < |prog| && Marks(prog[i], l) && Marks(prog[j], l) ==> i == j
  }

  datatype Config = At(pc: nat, st: Cpu)

  /** One step; running off the program and PULS ..,PC stop. */
  function Step(prog: seq<Instr>, c: Config): Config {
    if c.pc >= |prog| then c else
    var i := prog[c.pc];
    if Straight(i) then At(c.pc + 1, Do(i, c.st))
    else if i.Puls? then c
    else if i.SkipBytes? then At(c.pc + 1 + SkipOver(prog[c.pc + 1..], i.k), c.st)
    else if Taken(i, c.st.cc) then At(Target(prog, i.l), c.st)
    else At(c.pc + 1, c.st)
  }

  function Steps(prog: seq<Instr>, c: Config, n: nat): Config
    decreases n
  {
    if n == 0 then c else Steps(prog, Step(prog, c), n - 1)
  }

  ghost predicate Reaches(prog: seq<Instr>, c: Config, c': Config) {
    exists n: nat :: Steps(prog, c, n) == c'
  }

  lemma {:induction false} StepsAdd(prog: seq<Instr>, c: Config, n: nat, k: nat)
    ensures Steps(prog, c, n + k) == Steps(prog, Steps(prog, c, n), k)
    decreases n
  {
    hide Step;
    if n != 0 { StepsAdd(prog, Step(prog, c), n - 1, k); }
  }

  lemma ReachesTrans(prog: seq<Instr>, a: Config, b: Config, c: Config)
    requires Reaches(prog, a, b) && Reaches(prog, b, c)
    ensures Reaches(prog, a, c)
  {
    hide Steps;
    var n: nat :| Steps(prog, a, n) == b;
    var k: nat :| Steps(prog, b, k) == c;
    StepsAdd(prog, a, n, k);
  }

  lemma ReachesRefl(prog: seq<Instr>, c: Config)
    ensures Reaches(prog, c, c)
  {
    hide Step;
    assert Steps(prog, c, 0) == c;
  }

  lemma ReachesStep(prog: seq<Instr>, c: Config)
    ensures Reaches(prog, c, Step(prog, c))
  {
    hide Step;
    assert Steps(prog, Step(prog, c), 0) == Step(prog, c);
    assert Steps(prog, c, 1) == Step(prog, c);
  }

  /** Off the program, or at an instruction that returns. */
  predicate Stopped(prog: seq<Instr>, c: Config) { c.pc >= |prog| || prog[c.pc].Puls? }

  /** The program makes k steps from c without stopping. */
  predicate Long(prog: seq<Instr>, c: Config, k: nat) { !Stopped(prog, Steps(prog, c, k)) }

  lemma {:induction false} StoppedStays(prog: seq<Instr>, c: Config, n: nat)
    requires Stopped(prog, c)
    ensures Steps(prog, c, n) == c
    decreases n
  {
    if n != 0 { StoppedStays(prog, c, n - 1); }
  }

  lemma LongLess(prog: seq<Instr>, c: Config, k: nat, j: nat)
    requires Long(prog, c, k) && j <= k
    ensures Long(prog, c, j)
  {
    hide Steps; hide Stopped;
    StepsAdd(prog, c, j, k - j);
    if Stopped(prog, Steps(prog, c, j)) { StoppedStays(prog, Steps(prog, c, j), k - j); }
  }

  /** What comes before adds to the steps, at least one when the place has changed. */
  lemma LongBefore(prog: seq<Instr>, a: Config, b: Config, k: nat)
    requires Reaches(prog, a, b) && Long(prog, b, k)
    ensures Long(prog, a, if a.pc != b.pc then k + 1 else k)
  {
    hide Stopped; hide Step;
    var n: nat :| Steps(prog, a, n) == b;
    StepsAdd(prog, a, n, k);
    if a.pc != b.pc { assert n > 0; }
    LongLess(prog, a, n + k, if a.pc != b.pc then k + 1 else k);
  }

  /** The code stands at pc in the program. */
  ghost predicate Placed(prog: seq<Instr>, pc: nat, code: seq<Instr>) {
    pc + |code| <= |prog| && prog[pc..pc + |code|] == code
  }

  lemma PlacedSplit(prog: seq<Instr>, pc: nat, c1: seq<Instr>, c2: seq<Instr>)
    requires Placed(prog, pc, c1 + c2)
    ensures Placed(prog, pc, c1) && Placed(prog, pc + |c1|, c2)
  {
    assert (c1 + c2)[..|c1|] == c1;
    assert (c1 + c2)[|c1|..] == c2;
  }

  lemma PlacedAt(prog: seq<Instr>, pc: nat, code: seq<Instr>, k: nat)
    requires Placed(prog, pc, code) && k < |code|
    ensures prog[pc + k] == code[k]
  {
    assert prog[pc..pc + |code|][k] == code[k];
  }

  lemma PlacedDrop(prog: seq<Instr>, pc: nat, code: seq<Instr>, k: nat)
    requires Placed(prog, pc, code) && k <= |code|
    ensures Placed(prog, pc + k, code[k..])
  {
    assert prog[pc + k..pc + |code|] == prog[pc..pc + |code|][k..];
  }

  /** In a program without double labels, a label resolves to where it stands. */
  lemma TargetHere(prog: seq<Instr>, pc: nat, l: nat)
    requires Unique(prog) && pc < |prog| && prog[pc] == Label(l)
    ensures Target(prog, l) == pc
  {
    assert Marks(prog[pc], l);
  }

  lemma TargetEqu(prog: seq<Instr>, pc: nat, l: nat, d: nat, q: nat)
    requires Unique(prog) && pc < |prog| && prog[pc] == Equ(l, d)
    requires q < |prog| && prog[q] == Label(d)
    ensures Target(prog, l) == q
  {
    assert Marks(prog[pc], l);
    assert Marks(prog[q], d);
  }

  lemma LabelStep(prog: seq<Instr>, pc: nat, st: Cpu)
    requires pc < |prog| && (prog[pc].Label? || prog[pc].Equ?)
    ensures Step(prog, At(pc, st)) == At(pc + 1, st)
  {
    hide Do; hide Target;
  }

  lemma JumpStep(prog: seq<Instr>, pc: nat, st: Cpu, l: nat)
    requires pc < |prog| && (prog[pc] == Jmp(l) || prog[pc] == ShortJmp(l))
    ensures Step(prog, At(pc, st)) == At(Target(prog, l), st)
  {
    hide Do; hide Target;
  }

  lemma StraightStep(prog: seq<Instr>, pc: nat, st: Cpu)
    requires pc < |prog| && Straight(prog[pc])
    ensures Step(prog, At(pc, st)) == At(pc + 1, Do(prog[pc], st))
  {
    hide Do; hide Target;
  }

  lemma BranchStep(prog: seq<Instr>, pc: nat, st: Cpu)
    requires pc < |prog| && (prog[pc].Branch? || prog[pc].ShortEq?)
    ensures Step(prog, At(pc, st)) == At(if Taken(prog[pc], st.cc) then Target(prog, prog[pc].l) else pc + 1, st)
  {
    hide Do; hide Target; hide Holds;
  }

  // ---------- pieces inside programs ----------

  /** Where the program is after a piece of code that was run on its own. */
  function Landing(prog: seq<Instr>, pc: nat, len: nat, o: Outcome): Config
    requires !o.Stuck?
  {
    if o.Fall? then At(pc + len, o.st) else At(Target(prog, o.l), o.st)
  }

  lemma {:induction false} SkipBounded(code: seq<Instr>, more: seq<Instr>, n: nat)
    requires SkipOver(code, n) <= |code|
    ensures SkipOver(code + more, n) == SkipOver(code, n)
  {
    SkipAppend(code, more, n);
  }

  /** Running a piece on its own is what the program does with the piece in place. */
  lemma {:induction false} ExecInProgram(prog: seq<Instr>, pc: nat, code: seq<Instr>, st: Cpu)
    requires Unique(prog) && Placed(prog, pc, code) && !Exec(code, st).Stuck?
    ensures Reaches(prog, At(pc, st), Landing(prog, pc, |code|, Exec(code, st)))
    decreases |code|, 0
  {
    hide Do; hide Target; hide Unique; hide Reaches; hide Placed;
    if code == [] {
      ReachesRefl(prog, At(pc, st));
    } else {
      var i, rest := code[0], code[1..];
      PlacedLen(prog, pc, code);
      PlacedAt(prog, pc, code, 0);
      PlacedDrop(prog, pc, code, 1);
      ReachesStep(prog, At(pc, st));
      var next := Step(prog, At(pc, st));
      if i.SkipBytes? {
        SkipInProgram(prog, pc, code, st);
      } else {
        if Straight(i) { ExecInProgram(prog, pc + 1, rest, Do(i, st)); }
        else if Taken(i, st.cc) { JumpInProgram(prog, pc + 1, rest, i.l, st); }
        else { ExecInProgram(prog, pc + 1, rest, st); }
        ReachesTrans(prog, At(pc, st), next, Landing(prog, pc, |code|, Exec(code, st)));
      }
    }
  }

  lemma PlacedLen(prog: seq<Instr>, pc: nat, code: seq<Instr>)
    requires Placed(prog, pc, code)
    ensures pc + |code| <= |prog|
  {}

  lemma SkipInProgram(prog: seq<Instr>, pc: nat, code: seq<Instr>, st: Cpu)
    requires Unique(prog) && Placed(prog, pc, code) && !Exec(code, st).Stuck?
    requires code != [] && code[0].SkipBytes?
    ensures Reaches(prog, At(pc, st), Landing(prog, pc, |code|, Exec(code, st)))
    decreases |code| - 1, 2
  {
    hide Do; hide Target; hide Unique; hide Reaches; hide Placed; hide Step; hide Exec; hide SkipOver;
    var rest := code[1..];
    var k := SkipOver(rest, code[0].k);
    SkipExec(code, st);
    PlacedLen(prog, pc, code);
    PlacedDrop(prog, pc, code, 1);
    ReachesStep(prog, At(pc, st));
    SkipStep(prog, pc, code, st);
    PlacedDrop(prog, pc + 1, rest, k);
    ExecInProgram(prog, pc + 1 + k, rest[k..], st);
    ReachesTrans(prog, At(pc, st), At(pc + 1 + k, st), Landing(prog, pc, |code|, Exec(code, st)));
  }

  lemma SkipExec(code: seq<Instr>, st: Cpu)
    requires code != [] && code[0].SkipBytes? && !Exec(code, st).Stuck?
    ensures var k := SkipOver(code[1..], code[0].k);
            k <= |code| - 1 && Exec(code, st) == Exec(code[1..][k..], st)
  {
    hide Do; hide SkipOver;
  }

  lemma SkipStep(prog: seq<Instr>, pc: nat, code: seq<Instr>, st: Cpu)
    requires Placed(prog, pc, code) && code != [] && code[0].SkipBytes? && SkipOver(code[1..], code[0].k) <= |code| - 1
    ensures Step(prog, At(pc, st)) == At(pc + 1 + SkipOver(code[1..], code[0].k), st)
  {
    hide Do; hide Target; hide SkipOver; hide Placed;
    PlacedLen(prog, pc, code);
    PlacedAt(prog, pc, code, 0);
    PlacedTail(prog, pc, code);
    SkipBounded(code[1..], prog[pc + |code|..], code[0].k);
  }

  lemma PlacedTail(prog: seq<Instr>, pc: nat, code: seq<Instr>)
    requires Placed(prog, pc, code) && code != []
    ensures prog[pc + 1..] == code[1..] + prog[pc + |code|..]
  {
    assert code[1..] == prog[pc..pc + |code|][1..];
  }

  lemma JumpInProgram(prog: seq<Instr>, pc: nat, rest: seq<Instr>, l: nat, st: Cpu)
    requires Unique(prog) && Placed(prog, pc, rest) && !JumpTo(rest, l, st).Stuck?
    ensures Reaches(prog, At(Target(prog, l), st), Landing(prog, pc, |rest|, JumpTo(rest, l, st)))
    decreases |rest|, 1
  {
    hide Do; hide Reaches; hide Exec; hide Target; hide Placed; hide Unique; hide Step;
    PlacedLen(prog, pc, rest);
    var k := Find(rest, l);
    if k < |rest| {
      PlacedAt(prog, pc, rest, k);
      TargetHere(prog, pc + k, l);
      PlacedDrop(prog, pc, rest, k);
      ExecInProgram(prog, pc + k, rest[k..], st);
    } else {
      ReachesRefl(prog, At(Target(prog, l), st));
    }
  }
}
