/** The target of the C compiler as far as branches go, and code placed in programs for it. */
module Machine {

  /** Relational operators, in the order the compiler numbers them. */
  datatype RelOp = EQ | NE | LE | LT | GE | GT | ULE | ULT | UGE | UGT

  const WORD: int := 65536

  function Signed(x: int, size: int): int {
    if x < size / 2 then x else x - size
  }

  /** The truth of a relation between two unsigned numbers of the given size. */
  predicate Compare(op: RelOp, x: int, y: int, size: int) {
    match op
    case EQ => x == y
    case NE => x != y
    case LE => Signed(x, size) <= Signed(y, size)
    case LT => Signed(x, size) < Signed(y, size)
    case GE => Signed(x, size) >= Signed(y, size)
    case GT => Signed(x, size) > Signed(y, size)
    case ULE => x <= y
    case ULT => x < y
    case UGE => x >= y
    case UGT => x > y
  }

  type Trace = seq<nat>

  /** The values of an expression, or of the two operands of a relational: unsigned machine words. */
  type Env = (nat, Trace) -> (nat, nat)

  /** Compute: evaluate an expression, or the operands of a relational. Cmp: compare the operands as
      words; Test: compare the first with 0; Upper and Lower: compare halves of longs. CmpConst,
      SubConst and Shl work on ax; Xchg exchanges it with bx; JumpTable is the jump through bx and the
      table of labels it goes through. */
  datatype Instr =
    | LabelDef(lab: int)
    | Compute(id: nat)
    | Cmp
    | Test
    | Upper
    | Lower
    | Branch(op: RelOp, lab: int)
    | Jump(lab: int)
    | CmpConst(k: int)
    | SubConst(k: int)
    | Shl
    | Xchg
    | JumpTable(words: seq<int>)

  /** pc, the values computed last (ax and bx), the words compared last, and what has been evaluated. */
  datatype State = State(pc: nat, v: (nat, nat), x: int, y: int, tr: Trace)

  /** Where a label is defined; the end of the program if nowhere. */
  function Find(code: seq<Instr>, lab: int): (i: nat)
    ensures i <= |code| && (i < |code| ==> code[i] == LabelDef(lab))
  {
    if code == [] then 0
    else if code[0] == LabelDef(lab) then 0
    else 1 + Find(code[1..], lab)
  }

  function Step(env: Env, code: seq<Instr>, s: State): State {
    if s.pc >= |code| then s
    else
      var next := s.(pc := s.pc + 1);
      match code[s.pc]
      case LabelDef(_) => next
      case Compute(id) => next.(v := env(id, s.tr), tr := s.tr + [id])
      case Cmp => next.(x := s.v.0 % WORD, y := s.v.1 % WORD)
      case Test => next.(x := s.v.0 % WORD, y := 0)
      case Upper => next.(x := s.v.0 / WORD % WORD, y := s.v.1 / WORD % WORD)
      case Lower => next.(x := s.v.0 % WORD, y := s.v.1 % WORD)
      case Branch(op, lab) => if Compare(op, s.x, s.y, WORD) then s.(pc := Find(code, lab)) else next
      case Jump(lab) => s.(pc := Find(code, lab))
      case CmpConst(k) => next.(x := s.v.0 % WORD, y := k % WORD)
      case SubConst(k) => next.(v := ((s.v.0 - k) % WORD, s.v.1))
      case Shl => next.(v := (s.v.0 * 2 % WORD, s.v.1))
      case Xchg => next.(v := (s.v.1, s.v.0))
      case JumpTable(words) =>
        if s.v.1 % 2 == 0 && s.v.1 / 2 < |words| then s.(pc := Find(code, words[s.v.1 / 2])) else s
  }

  function Steps(env: Env, code: seq<Instr>, s: State, n: nat): State
    decreases n
  {
    if n == 0 then s else Steps(env, code, Step(env, code, s), n - 1)
  }

  ghost predicate Reaches(env: Env, code: seq<Instr>, s: State, t: State) {
    exists n: nat :: Steps(env, code, s, n) == t
  }

  lemma {:induction false} StepsAdd(env: Env, code: seq<Instr>, s: State, m: nat, n: nat)
    ensures Steps(env, code, s, m + n) == Steps(env, code, Steps(env, code, s, m), n)
    decreases m
  {
    if m > 0 { StepsAdd(env, code, Step(env, code, s), m - 1, n); }
  }

  lemma {:induction false} ReachesTrans(env: Env, code: seq<Instr>, s: State, t: State, u: State)
    requires Reaches(env, code, s, t) && Reaches(env, code, t, u)
    ensures Reaches(env, code, s, u)
  {
    var m: nat :| Steps(env, code, s, m) == t;
    var n: nat :| Steps(env, code, t, n) == u;
    StepsAdd(env, code, s, m, n);
  }

  lemma {:induction false} ReachesStep(env: Env, code: seq<Instr>, s: State)
    ensures Reaches(env, code, s, s) && Reaches(env, code, s, Step(env, code, s))
  {
    assert Steps(env, code, s, 0) == s;
    assert Steps(env, code, s, 1) == Step(env, code, s);
  }

  lemma {:induction false} StepOn(env: Env, prog: seq<Instr>, s: State, m: State)
    requires Reaches(env, prog, s, m)
    ensures Reaches(env, prog, s, Step(env, prog, m))
  {
    ReachesStep(env, prog, m);
    ReachesTrans(env, prog, s, m, Step(env, prog, m));
  }

  // ---------------------------------------------------------------------------------------
  // Placed code

  /** Code and the next free label number. */
  datatype Out = Out(code: seq<Instr>, next: int)

  function JumpIf(lab: int): seq<Instr> {
    if lab >= 0 then [Jump(lab)] else []
  }

  function DefIf(on: bool, lab: int): seq<Instr> {
    if on then [LabelDef(lab)] else []
  }

  function Dest(prog: seq<Instr>, lab: int, end: nat): nat {
    if lab >= 0 then Find(prog, lab) else end
  }

  predicate At(prog: seq<Instr>, a: nat, c: seq<Instr>) {
    a + |c| <= |prog| && prog[a..a + |c|] == c
  }

  lemma {:induction false} CodeAt(prog: seq<Instr>, a: nat, c: seq<Instr>, i: nat)
    requires At(prog, a, c) && i < |c|
    ensures prog[a + i] == c[i]
  {
    assert prog[a..a + |c|][i] == c[i];
  }

  lemma {:induction false} AtSplit(prog: seq<Instr>, a: nat, x: seq<Instr>, y: seq<Instr>)
    requires At(prog, a, x + y)
    ensures At(prog, a, x) && At(prog, a + |x|, y)
  {
    var c := prog[a..a + |x + y|];
    assert forall k: nat :: k < |x| ==> prog[a + k] == c[k] == x[k];
    assert forall k: nat :: k < |y| ==> prog[a + |x| + k] == c[|x| + k] == y[k];
  }

  /** Labels from n to n' are defined only between a and b. */
  ghost predicate Own(prog: seq<Instr>, a: nat, b: nat, n: int, n': int) {
    forall i: nat :: i < |prog| && prog[i].LabelDef? && n <= prog[i].lab < n' ==> a <= i < b
  }

  ghost predicate DefsIn(c: seq<Instr>, n: int, n': int) {
    forall i: nat :: i < |c| && c[i].LabelDef? ==> n <= c[i].lab < n'
  }

  /** Labels defined between a and b are among n to n'. */
  ghost predicate DefsAt(prog: seq<Instr>, a: nat, b: nat, n: int, n': int) {
    forall i: nat :: a <= i < b && i < |prog| && prog[i].LabelDef? ==> n <= prog[i].lab < n'
  }

  lemma {:induction false} AtDefs(prog: seq<Instr>, a: nat, c: seq<Instr>, n: int, n': int)
    requires At(prog, a, c) && DefsIn(c, n, n')
    ensures DefsAt(prog, a, a + |c|, n, n')
  {
    assert forall i: nat :: a <= i < a + |c| ==> prog[i] == prog[a..a + |c|][i - a];
  }

  lemma {:induction false} Defs2(x: seq<Instr>, y: seq<Instr>, n: int, m: int, m': int, n': int)
    requires DefsIn(x, n, m) && DefsIn(y, m', n') && n <= m <= m' <= n'
    ensures DefsIn(x + y, n, n')
  {
  }

  /** A label defined in one place is found there. */
  lemma {:induction false} FindOnly(prog: seq<Instr>, lab: int, q: nat)
    requires q < |prog| && prog[q] == LabelDef(lab)
    requires forall i: nat :: i < |prog| && prog[i] == LabelDef(lab) ==> i == q
    ensures Find(prog, lab) == q
  {
    if q > 0 {
      FindOnly(prog[1..], lab, q - 1);
    }
  }

  /** A label owned by placed code and defined in one place of it is found there. */
  lemma {:induction false} FindOwn(prog: seq<Instr>, a: nat, b: nat, n: int, n': int, q: nat, lab: int)
    requires Own(prog, a, b, n, n') && n <= lab < n' && q < |prog| && prog[q] == LabelDef(lab)
    requires forall i: nat :: a <= i < b && i != q && i < |prog| ==> prog[i] != LabelDef(lab)
    ensures Find(prog, lab) == q
  {
    FindOnly(prog, lab, q);
  }

  /** An optional jump at the end of placed code. */
  lemma {:induction false} JumpIfDoes(env: Env, prog: seq<Instr>, a: nat, lab: int, s: State, m: State)
    returns (s': State)
    requires At(prog, a, JumpIf(lab)) && Reaches(env, prog, s, m) && m.pc == a
    ensures Reaches(env, prog, s, s') && s'.tr == m.tr && s'.v == m.v && s'.pc == Dest(prog, lab, a)
  {
    s' := m;
    if lab >= 0 {
      CodeAt(prog, a, JumpIf(lab), 0);
      StepOn(env, prog, s, m);
      s' := Step(env, prog, m);
    }
  }

  /** Arriving at a label is arriving behind it. */
  lemma {:induction false} OverDef(env: Env, prog: seq<Instr>, s: State, m: State, lab: int) returns (s': State)
    requires Reaches(env, prog, s, m) && m.pc < |prog| && prog[m.pc] == LabelDef(lab)
    ensures Reaches(env, prog, s, s') && s' == m.(pc := m.pc + 1)
  {
    StepOn(env, prog, s, m);
    s' := Step(env, prog, m);
  }
}
