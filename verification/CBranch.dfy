/** Boolean expressions lowered to compares and branches (`cbranch` of reader.c, `cbgen` of local2.c). */
module CBranch {

  import opened Basics
  import opened Machine

  // ---------------------------------------------------------------------------------------
  // Expressions

  /** What a relational node compares: two words, two longs, or a word with the constant 0. */
  datatype Kind = Words | Longs | WithZero

  /** Nodes as `cbranch` tells them apart. Operands and other expressions are opaque and named by a
      number; what they evaluate to may depend on all that was evaluated before. */
  datatype Node =
    | Rel(op: RelOp, id: nat, kind: Kind)
    | AndAnd(left: Node, right: Node)
    | OrOr(left: Node, right: Node)
    | Not(arg: Node)
    | Comma(effect: nat, right: Node)
    | Quest(cond: Node, yes: Node, no: Node)
    | Icon(lval: int, named: bool)
    | Other(id: nat)

  predicate Holds(op: RelOp, kind: Kind, v: (nat, nat)) {
    match kind
    case Words => Compare(op, v.0 % WORD, v.1 % WORD, WORD)
    case Longs => Compare(op, v.0 % (WORD * WORD), v.1 % (WORD * WORD), WORD * WORD)
    case WithZero => Compare(op, v.0 % WORD, 0, WORD)
  }

  /** Truth value and trace with short-circuit evaluation. */
  function Eval(env: Env, p: Node, tr: Trace): (bool, Trace) {
    match p
    case Rel(op, id, kind) => (Holds(op, kind, env(id, tr)), tr + [id])
    case AndAnd(l, r) => var (b, t) := Eval(env, l, tr); if b then Eval(env, r, t) else (false, t)
    case OrOr(l, r) => var (b, t) := Eval(env, l, tr); if b then (true, t) else Eval(env, r, t)
    case Not(e) => var (b, t) := Eval(env, e, tr); (!b, t)
    case Comma(id, e) => Eval(env, e, tr + [id])
    case Quest(c, y, n) => var (b, t) := Eval(env, c, tr); if b then Eval(env, y, t) else Eval(env, n, t)
    case Icon(v, named) => (v != 0 || named, tr)
    case Other(id) => (env(id, tr).0 % WORD != 0, tr + [id])
  }

  // ---------------------------------------------------------------------------------------
  // Code generation, as a function

  /** negrel */
  function Negated(op: RelOp): RelOp {
    match op
    case EQ => NE case NE => EQ case LE => GT case LT => GE case GE => LT case GT => LE
    case ULE => UGT case ULT => UGE case UGE => ULT case UGT => ULE
  }

  /** lbranches: two conditions on the upper halves, one on the lower. */
  function LongBranches(op: RelOp): (Option<RelOp>, Option<RelOp>, RelOp) {
    match op
    case EQ => (None, Some(NE), EQ)
    case NE => (Some(NE), None, NE)
    case LE => (Some(LT), Some(GT), ULE)
    case LT => (Some(LT), Some(GT), ULT)
    case GE => (Some(GT), Some(LT), UGE)
    case GT => (Some(GT), Some(LT), UGT)
    case ULE => (Some(ULT), Some(UGT), ULE)
    case ULT => (Some(ULT), Some(UGT), ULT)
    case UGE => (Some(UGT), Some(ULT), UGE)
    case UGT => (Some(UGT), Some(ULT), UGT)
  }

  function Opt(op: Option<RelOp>, lab: int): seq<Instr> {
    match op case None => [] case Some(o) => [Branch(o, lab)]
  }

  /** Compare and branch to lab if the relation holds. */
  function GenRel(op: RelOp, id: nat, kind: Kind, lab: int, n: int): Out {
    match kind
    case Words => Out([Compute(id), Cmp, Branch(op, lab)], n)
    case Longs =>
      var (a, b, c) := LongBranches(op);
      Out([Compute(id), Upper] + Opt(a, lab) + Opt(b, n) + [Lower, Branch(c, lab), LabelDef(n)], n + 1)
    case WithZero =>
      var test := [Compute(id), Test];
      match op
      case UGT => Out(test + [Branch(NE, lab)], n)
      case ULE => Out(test + [Branch(EQ, lab)], n)
      case UGE => Out(test + [Jump(lab)], n)
      case ULT => Out(test, n)
      case _ => Out(test + [Branch(op, lab)], n)
  }

  /** The code for p: control goes to label t if p is true and to f if it is false, a negative label
      meaning the next instruction. Labels from n on are free. */
  function Gen(p: Node, t: int, f: int, n: int): Out {
    match p
    case Rel(op, id, kind) =>
      var (op', t', f') := if t < 0 then (Negated(op), f, -1) else (op, t, f);
      var r := GenRel(op', id, kind, t', n);
      Out(r.code + JumpIf(f'), r.next)
    case AndAnd(l, r) =>
      var (lab, n1) := if f < 0 then (n, n + 1) else (f, n);
      var a := Gen(l, -1, lab, n1);
      var b := Gen(r, t, f, a.next);
      Out(a.code + b.code + DefIf(f < 0, lab), b.next)
    case OrOr(l, r) =>
      var (lab, n1) := if t < 0 then (n, n + 1) else (t, n);
      var a := Gen(l, lab, -1, n1);
      var b := Gen(r, t, f, a.next);
      Out(a.code + b.code + DefIf(t < 0, lab), b.next)
    case Not(e) => Gen(e, f, t, n)
    case Comma(id, e) =>
      var r := Gen(e, t, f, n);
      Out([Compute(id)] + r.code, r.next)
    case Quest(c, y, z) =>
      var (flab, n1) := if f < 0 then (n, n + 1) else (f, n);
      var (tlab, n2) := if t < 0 then (n1, n1 + 1) else (t, n1);
      var a := Gen(c, -1, n2, n2 + 1);
      var b := Gen(y, tlab, flab, a.next);
      var d := Gen(z, t, f, b.next);
      Out(a.code + b.code + [LabelDef(n2)] + d.code + DefIf(t < 0, tlab) + DefIf(f < 0, flab), d.next)
    case Icon(v, named) =>
      Out(if v != 0 || named then JumpIf(t) else JumpIf(f), n)
    case Other(id) =>
      Out([Compute(id), Test] + (if t >= 0 then [Branch(NE, t)] else [])
          + (if f >= 0 then (if t >= 0 then [Jump(f)] else [Branch(EQ, f)]) else []), n)
  }

  // ---------------------------------------------------------------------------------------
  // Placement of code in a program

  lemma {:induction false} RelLabels(op: RelOp, id: nat, kind: Kind, lab: int, n: int)
    ensures var r := GenRel(op, id, kind, lab, n); n <= r.next && DefsIn(r.code, n, r.next)
  {
  }

  lemma {:induction false} JumpLabels(c: seq<Instr>, lab: int, n: int, next: int)
    requires DefsIn(c, n, next)
    ensures DefsIn(c + JumpIf(lab), n, next)
  {
  }

  lemma {:induction false} CommaLabels(id: nat, c: seq<Instr>, n: int, next: int)
    requires DefsIn(c, n, next)
    ensures DefsIn([Compute(id)] + c, n, next)
  {
  }

  lemma {:induction false} LeafLabels(p: Node, t: int, f: int, n: int)
    requires p.Icon? || p.Other?
    ensures DefsIn(Gen(p, t, f, n).code, n, Gen(p, t, f, n).next)
  {
  }

  /** The labels and the three pieces of a conditional expression. */
  datatype Pieces = Pieces(flab: int, tlab: int, lab: int, cond: Out, yes: Out, no: Out)

  function QuestPieces(c: Node, y: Node, z: Node, t: int, f: int, n: int): Pieces {
    var (flab, n1) := if f < 0 then (n, n + 1) else (f, n);
    var (tlab, n2) := if t < 0 then (n1, n1 + 1) else (t, n1);
    var u := Gen(c, -1, n2, n2 + 1);
    var v := Gen(y, tlab, flab, u.next);
    Pieces(flab, tlab, n2, u, v, Gen(z, t, f, v.next))
  }

  lemma {:induction false} QuestIs(c: Node, y: Node, z: Node, t: int, f: int, n: int)
    ensures var q := QuestPieces(c, y, z, t, f, n);
      Gen(Quest(c, y, z), t, f, n) ==
      Out(q.cond.code + q.yes.code + [LabelDef(q.lab)] + q.no.code + DefIf(t < 0, q.tlab) + DefIf(f < 0, q.flab),
          q.no.next)
  {
  }

  lemma {:induction false} QuestLabels(c: Node, y: Node, z: Node, t: int, f: int, n: int)
    requires var q := QuestPieces(c, y, z, t, f, n);
      && q.lab + 1 <= q.cond.next <= q.yes.next <= q.no.next && DefsIn(q.cond.code, q.lab + 1, q.cond.next)
      && DefsIn(q.yes.code, q.cond.next, q.yes.next) && DefsIn(q.no.code, q.yes.next, q.no.next)
    ensures var g := Gen(Quest(c, y, z), t, f, n); n <= g.next && DefsIn(g.code, n, g.next)
  {
    hide Gen, DefsIn;
    QuestIs(c, y, z, t, f, n);
    var q := QuestPieces(c, y, z, t, f, n);
    PairLabels(q.cond, q.yes, q.lab + 1, true, q.lab, q.lab);
    Defs2(q.cond.code + q.yes.code + [LabelDef(q.lab)], q.no.code, q.lab, q.yes.next, q.yes.next, q.no.next);
    QuestEnds(q.cond.code + q.yes.code + [LabelDef(q.lab)] + q.no.code, t < 0, q.tlab, f < 0, q.flab, n, q.lab,
              q.no.next);
  }

  /** Generated labels come from the free ones. */
  lemma {:induction false} GenLabels(p: Node, t: int, f: int, n: int)
    ensures n <= Gen(p, t, f, n).next && DefsIn(Gen(p, t, f, n).code, n, Gen(p, t, f, n).next)
  {
    hide GenRel, DefIf, JumpIf, DefsIn;
    match p
    case Rel(op, id, kind) =>
      var (op', t', f') := if t < 0 then (Negated(op), f, -1) else (op, t, f);
      RelLabels(op', id, kind, t', n);
      JumpLabels(GenRel(op', id, kind, t', n).code, f', n, GenRel(op', id, kind, t', n).next);
    case AndAnd(l, r) =>
      var (lab, n1) := if f < 0 then (n, n + 1) else (f, n);
      var a := Gen(l, -1, lab, n1);
      GenLabels(l, -1, lab, n1);
      GenLabels(r, t, f, a.next);
      PairLabels(a, Gen(r, t, f, a.next), n1, f < 0, lab, n);
    case OrOr(l, r) =>
      var (lab, n1) := if t < 0 then (n, n + 1) else (t, n);
      var a := Gen(l, lab, -1, n1);
      GenLabels(l, lab, -1, n1);
      GenLabels(r, t, f, a.next);
      PairLabels(a, Gen(r, t, f, a.next), n1, t < 0, lab, n);
    case Not(e) => GenLabels(e, f, t, n);
    case Comma(id, e) =>
      GenLabels(e, t, f, n);
      CommaLabels(id, Gen(e, t, f, n).code, n, Gen(e, t, f, n).next);
    case Quest(c, y, z) =>
      var q := QuestPieces(c, y, z, t, f, n);
      GenLabels(c, -1, q.lab, q.lab + 1);
      GenLabels(y, q.tlab, q.flab, q.cond.next);
      GenLabels(z, t, f, q.yes.next);
      QuestLabels(c, y, z, t, f, n);
    case Icon(_, _) => LeafLabels(p, t, f, n);
    case Other(_) => LeafLabels(p, t, f, n);
  }

  lemma {:induction false} PairLabels(a: Out, b: Out, n1: int, on: bool, lab: int, n: int)
    requires n <= n1 <= a.next <= b.next && (on ==> lab == n && n1 == n + 1)
    requires DefsIn(a.code, n1, a.next) && DefsIn(b.code, a.next, b.next)
    ensures DefsIn(a.code + b.code + DefIf(on, lab), n, b.next)
  {
  }

  lemma {:induction false} QuestEnds(c: seq<Instr>, t: bool, tlab: int, f: bool, flab: int, n: int, n2: int, next: int)
    requires n <= n2 < next && DefsIn(c, n2, next) && (t ==> n <= tlab < next) && (f ==> n <= flab < next)
    ensures DefsIn(c + DefIf(t, tlab) + DefIf(f, flab), n, next)
  {
  }

  // ---------------------------------------------------------------------------------------
  // Relations

  /** Three conditions on halves decide a comparison of longs. */
  lemma {:induction false} HalvesDecide(op: RelOp, x: nat, y: nat)
    ensures var (a, b, c) := LongBranches(op);
      var xh, yh, xl, yl := x / WORD % WORD, y / WORD % WORD, x % WORD, y % WORD;
      Compare(op, x % (WORD * WORD), y % (WORD * WORD), WORD * WORD) ==
        if a.Some? && Compare(a.value, xh, yh, WORD) then true
        else if b.Some? && Compare(b.value, xh, yh, WORD) then false
        else Compare(c, xl, yl, WORD)
  {
    Halves(x);
    Halves(y);
  }

  lemma {:induction false} Halves(x: nat)
    ensures x % (WORD * WORD) == x / WORD % WORD * WORD + x % WORD
  {
  }

  // ---------------------------------------------------------------------------------------
  // Correctness

  /** From s the machine comes to where p's truth value leads, having evaluated what p evaluates. */
  ghost predicate Does(env: Env, prog: seq<Instr>, p: Node, t: int, f: int, end: nat, s: State, s': State) {
    && Reaches(env, prog, s, s')
    && s'.tr == Eval(env, p, s.tr).1
    && s'.pc == Dest(prog, if Eval(env, p, s.tr).0 then t else f, end)
  }

  lemma {:induction false} WordsDo(env: Env, prog: seq<Instr>, a: nat, op: RelOp, id: nat, lab: int, n: int,
                                   s: State) returns (s': State)
    requires At(prog, a, GenRel(op, id, Words, lab, n).code) && s.pc == a
    ensures Reaches(env, prog, s, s') && s'.tr == s.tr + [id]
    ensures s'.pc == if Holds(op, Words, env(id, s.tr)) then Find(prog, lab) else a + 3
  {
    var c := GenRel(op, id, Words, lab, n).code;
    CodeAt(prog, a, c, 0);
    CodeAt(prog, a, c, 1);
    CodeAt(prog, a, c, 2);
    s' := s;
    ReachesStep(env, prog, s);
    s' := Step(env, prog, s');
    StepOn(env, prog, s, s');
    s' := Step(env, prog, s');
    StepOn(env, prog, s, s');
    s' := Step(env, prog, s');
  }

  lemma {:induction false} TestDoes(env: Env, prog: seq<Instr>, a: nat, id: nat, s: State) returns (s': State)
    requires a + 1 < |prog| && prog[a] == Compute(id) && prog[a + 1] == Test && s.pc == a
    ensures Reaches(env, prog, s, s') && s'.pc == a + 2 && s'.tr == s.tr + [id]
    ensures s'.x == env(id, s.tr).0 % WORD && s'.y == 0
  {
    hide Reaches;
    ReachesStep(env, prog, s);
    s' := Step(env, prog, s);
    StepOn(env, prog, s, s');
    s' := Step(env, prog, s');
  }

  lemma {:induction false} ZeroDoes(env: Env, prog: seq<Instr>, a: nat, op: RelOp, id: nat, lab: int, n: int,
                                    s: State) returns (s': State)
    requires At(prog, a, GenRel(op, id, WithZero, lab, n).code) && s.pc == a
    ensures Reaches(env, prog, s, s') && s'.tr == s.tr + [id]
    ensures s'.pc == if Holds(op, WithZero, env(id, s.tr)) then Find(prog, lab)
                     else a + |GenRel(op, id, WithZero, lab, n).code|
  {
    hide Reaches, Find;
    var c := GenRel(op, id, WithZero, lab, n).code;
    CodeAt(prog, a, c, 0);
    CodeAt(prog, a, c, 1);
    s' := TestDoes(env, prog, a, id, s);
    if op != ULT {
      CodeAt(prog, a, c, 2);
      StepOn(env, prog, s, s');
      s' := Step(env, prog, s');
    }
  }

  lemma {:induction false} OptDoes(env: Env, prog: seq<Instr>, a: nat, op: Option<RelOp>, lab: int, s: State,
                                   m: State) returns (s': State)
    requires At(prog, a, Opt(op, lab)) && Reaches(env, prog, s, m) && m.pc == a
    ensures Reaches(env, prog, s, s') && s' == m.(pc := s'.pc)
    ensures s'.pc == if op.Some? && Compare(op.value, m.x, m.y, WORD) then Find(prog, lab) else a + |Opt(op, lab)|
  {
    s' := m;
    if op.Some? {
      CodeAt(prog, a, Opt(op, lab), 0);
      StepOn(env, prog, s, m);
      s' := Step(env, prog, m);
    }
  }

  /** The pieces of a comparison of longs, and the label behind it. */
  lemma {:induction false} LongParts(prog: seq<Instr>, a: nat, op: RelOp, id: nat, lab: int, n: int)
    requires var c := GenRel(op, id, Longs, lab, n).code; At(prog, a, c) && Own(prog, a, a + |c|, n, n + 1)
    ensures var (x, y, z) := LongBranches(op);
      var b := a + 2 + |Opt(x, lab)|;
      var d := b + |Opt(y, n)|;
      && At(prog, a, [Compute(id), Upper]) && At(prog, a + 2, Opt(x, lab)) && At(prog, b, Opt(y, n))
      && At(prog, d, [Lower, Branch(z, lab), LabelDef(n)])
      && Find(prog, n) == d + 2 && d + 3 == a + |GenRel(op, id, Longs, lab, n).code|
  {
    hide Find, At, Own, GenRel, LongBranches, Opt;
    LongIs(op, id, lab, n);
    var (x, y, z) := LongBranches(op);
    var head, tail := [Compute(id), Upper], [Lower, Branch(z, lab), LabelDef(n)];
    var c := head + Opt(x, lab) + Opt(y, n) + tail;
    AtSplit(prog, a, head + Opt(x, lab) + Opt(y, n), tail);
    AtSplit(prog, a, head + Opt(x, lab), Opt(y, n));
    AtSplit(prog, a, head, Opt(x, lab));
    LastFound(prog, a, c, n);
  }

  lemma {:induction false} LongIs(op: RelOp, id: nat, lab: int, n: int)
    ensures var (x, y, z) := LongBranches(op);
      var c := GenRel(op, id, Longs, lab, n).code;
      && c == [Compute(id), Upper] + Opt(x, lab) + Opt(y, n) + [Lower, Branch(z, lab), LabelDef(n)]
      && |c| == |Opt(x, lab)| + |Opt(y, n)| + 5
      && c[|c| - 1] == LabelDef(n) && forall i :: 0 <= i < |c| - 1 ==> !c[i].LabelDef?
  {
    hide LongBranches;
  }

  /** The one label that ends the code. */
  lemma {:induction false} LastFound(prog: seq<Instr>, a: nat, c: seq<Instr>, n: int)
    requires At(prog, a, c) && Own(prog, a, a + |c|, n, n + 1) && |c| > 0 && c[|c| - 1] == LabelDef(n)
    requires forall i :: 0 <= i < |c| - 1 ==> !c[i].LabelDef?
    ensures Find(prog, n) == a + |c| - 1
  {
    hide Find;
    forall i: nat | a <= i < a + |c| - 1
      ensures prog[i] != LabelDef(n)
    {
      CodeAt(prog, a, c, i - a);
    }
    CodeAt(prog, a, c, |c| - 1);
    FindOwn(prog, a, a + |c|, n, n + 1, a + |c| - 1, n);
  }

  lemma {:induction false} LongsDo(env: Env, prog: seq<Instr>, a: nat, op: RelOp, id: nat, lab: int, n: int,
                                   s: State) returns (s': State)
    requires var c := GenRel(op, id, Longs, lab, n).code; At(prog, a, c) && Own(prog, a, a + |c|, n, n + 1)
    requires s.pc == a
    ensures Reaches(env, prog, s, s') && s'.tr == s.tr + [id]
    ensures s'.pc == if Holds(op, Longs, env(id, s.tr)) then Find(prog, lab)
                     else a + |GenRel(op, id, Longs, lab, n).code|
  {
    hide Find, Compare, GenRel, Holds, At, Own;
    var (x, y, z) := LongBranches(op);
    LongParts(prog, a, op, id, lab, n);
    HoldsLongs(op, env(id, s.tr));
    var m := UpperDoes(env, prog, a, id, s);
    s' := HalvesDo(env, prog, a + 2, x, y, z, lab, n, s, m);
  }

  lemma {:induction false} UpperDoes(env: Env, prog: seq<Instr>, a: nat, id: nat, s: State) returns (m: State)
    requires At(prog, a, [Compute(id), Upper]) && s.pc == a
    ensures var v := env(id, s.tr);
      Reaches(env, prog, s, m) && m == State(a + 2, v, v.0 / WORD % WORD, v.1 / WORD % WORD, s.tr + [id])
  {
    CodeAt(prog, a, [Compute(id), Upper], 0);
    CodeAt(prog, a, [Compute(id), Upper], 1);
    ReachesStep(env, prog, s);
    m := Step(env, prog, s);
    StepOn(env, prog, s, m);
    m := Step(env, prog, m);
  }

  /** From the comparison of the upper halves to the decision. */
  lemma {:induction false} HalvesDo(env: Env, prog: seq<Instr>, b: nat, x: Option<RelOp>, y: Option<RelOp>, z: RelOp,
                                    lab: int, n: int,
                 s: State, m: State) returns (s': State)
    requires Reaches(env, prog, s, m) && m.pc == b
    requires At(prog, b, Opt(x, lab)) && At(prog, b + |Opt(x, lab)|, Opt(y, n))
    requires var d := b + |Opt(x, lab)| + |Opt(y, n)|;
      At(prog, d, [Lower, Branch(z, lab), LabelDef(n)]) && Find(prog, n) == d + 2
    ensures Reaches(env, prog, s, s') && s'.tr == m.tr
    ensures s'.pc ==
      if x.Some? && Compare(x.value, m.x, m.y, WORD) then Find(prog, lab)
      else if (y.Some? && Compare(y.value, m.x, m.y, WORD)) || !Compare(z, m.v.0 % WORD, m.v.1 % WORD, WORD) then
        b + |Opt(x, lab)| + |Opt(y, n)| + 3
      else Find(prog, lab)
  {
    hide Find, Compare;
    var d := b + |Opt(x, lab)| + |Opt(y, n)|;
    s' := OptDoes(env, prog, b, x, lab, s, m);
    if !(x.Some? && Compare(x.value, m.x, m.y, WORD)) {
      s' := OptDoes(env, prog, b + |Opt(x, lab)|, y, n, s, s');
      if y.Some? && Compare(y.value, m.x, m.y, WORD) {
        CodeAt(prog, d, [Lower, Branch(z, lab), LabelDef(n)], 2);
        s' := OverDef(env, prog, s, s', n);
      } else {
        s' := LowerDoes(env, prog, d, z, lab, n, s, s');
      }
    }
  }

  lemma {:induction false} LowerDoes(env: Env, prog: seq<Instr>, d: nat, z: RelOp, lab: int, n: int, s: State,
                                     m: State) returns (s': State)
    requires Reaches(env, prog, s, m) && m.pc == d && At(prog, d, [Lower, Branch(z, lab), LabelDef(n)])
    ensures Reaches(env, prog, s, s') && s'.tr == m.tr
    ensures s'.pc == if Compare(z, m.v.0 % WORD, m.v.1 % WORD, WORD) then Find(prog, lab) else d + 3
  {
    var tail := [Lower, Branch(z, lab), LabelDef(n)];
    CodeAt(prog, d, tail, 0);
    CodeAt(prog, d, tail, 1);
    CodeAt(prog, d, tail, 2);
    StepOn(env, prog, s, m);
    s' := Step(env, prog, m);
    StepOn(env, prog, s, s');
    s' := Step(env, prog, s');
    if !Compare(z, m.v.0 % WORD, m.v.1 % WORD, WORD) {
      StepOn(env, prog, s, s');
      s' := Step(env, prog, s');
    }
  }

  lemma {:induction false} HoldsLongs(op: RelOp, v: (nat, nat))
    ensures var (a, b, c) := LongBranches(op);
      Holds(op, Longs, v) ==
        if a.Some? && Compare(a.value, v.0 / WORD % WORD, v.1 / WORD % WORD, WORD) then true
        else if b.Some? && Compare(b.value, v.0 / WORD % WORD, v.1 / WORD % WORD, WORD) then false
        else Compare(c, v.0 % WORD, v.1 % WORD, WORD)
  {
    HalvesDecide(op, v.0, v.1);
  }

  /** A relational node: negated when only the false label is given, then compared, then the jump for
      the other outcome. */
  lemma {:induction false} RelDoes(env: Env, prog: seq<Instr>, a: nat, op: RelOp, id: nat, kind: Kind, t: int, f: int,
                                   n: int, s: State) returns (s': State)
    requires t >= 0 || f >= 0
    requires var g := Gen(Rel(op, id, kind), t, f, n); At(prog, a, g.code) && Own(prog, a, a + |g.code|, n, g.next)
    requires s.pc == a
    ensures Does(env, prog, Rel(op, id, kind), t, f, a + |Gen(Rel(op, id, kind), t, f, n).code|, s, s')
  {
    hide Holds, Steps, GenRel;
    var (op', t', f') := if t < 0 then (Negated(op), f, -1) else (op, t, f);
    var r := GenRel(op', id, kind, t', n);
    RelLabels(op', id, kind, t', n);
    AtSplit(prog, a, r.code, JumpIf(f'));
    RelOwns(prog, a, r, f', n);
    NegatedHolds(op, kind, env(id, s.tr));
    s' := CompareDoes(env, prog, a, op', id, kind, t', n, s);
    if !Holds(op', kind, env(id, s.tr)) {
      s' := JumpIfDoes(env, prog, a + |r.code|, f', s, s');
    }
  }

  lemma {:induction false} RelOwns(prog: seq<Instr>, a: nat, r: Out, f: int, n: int)
    requires At(prog, a + |r.code|, JumpIf(f)) && Own(prog, a, a + |r.code| + |JumpIf(f)|, n, r.next)
    ensures Own(prog, a, a + |r.code|, n, r.next)
  {
    if f >= 0 { CodeAt(prog, a + |r.code|, JumpIf(f), 0); }
  }

  lemma {:induction false} NegatedHolds(op: RelOp, kind: Kind, v: (nat, nat))
    ensures Holds(Negated(op), kind, v) == !Holds(op, kind, v)
  {
  }

  lemma {:induction false} CompareDoes(env: Env, prog: seq<Instr>, a: nat, op: RelOp, id: nat, kind: Kind, lab: int,
                                       n: int, s: State) returns (s': State)
    requires var r := GenRel(op, id, kind, lab, n); At(prog, a, r.code) && Own(prog, a, a + |r.code|, n, r.next)
    requires s.pc == a
    ensures Reaches(env, prog, s, s') && s'.tr == s.tr + [id]
    ensures s'.pc == if Holds(op, kind, env(id, s.tr)) then Find(prog, lab) else a + |GenRel(op, id, kind, lab, n).code|
  {
    match kind
    case Words => s' := WordsDo(env, prog, a, op, id, lab, n, s);
    case Longs => s' := LongsDo(env, prog, a, op, id, lab, n, s);
    case WithZero => s' := ZeroDoes(env, prog, a, op, id, lab, n, s);
  }

  /** Two pieces of code and, perhaps, a label behind them, placed together. */
  lemma {:induction false} PairParts(prog: seq<Instr>, at: nat, a: Out, b: Out, n1: int, on: bool, lab: int, n: int)
    requires n <= n1 <= a.next <= b.next && (on ==> lab == n && n1 == n + 1)
    requires DefsIn(a.code, n1, a.next) && DefsIn(b.code, a.next, b.next)
    requires var c := a.code + b.code + DefIf(on, lab); At(prog, at, c) && Own(prog, at, at + |c|, n, b.next)
    ensures At(prog, at, a.code) && Own(prog, at, at + |a.code|, n1, a.next)
    ensures At(prog, at + |a.code|, b.code) && Own(prog, at + |a.code|, at + |a.code| + |b.code|, a.next, b.next)
    ensures on ==> var q := at + |a.code| + |b.code|; Find(prog, lab) == q < |prog| && prog[q] == LabelDef(lab)
  {
    hide Find;
    AtSplit(prog, at, a.code + b.code, DefIf(on, lab));
    AtSplit(prog, at, a.code, b.code);
    AtDefs(prog, at, a.code, n1, a.next);
    AtDefs(prog, at + |a.code|, b.code, a.next, b.next);
    var q := at + |a.code| + |b.code|;
    if on {
      CodeAt(prog, q, [LabelDef(lab)], 0);
      FindOwn(prog, at, q + 1, n, b.next, q, lab);
    }
  }

  lemma {:induction false} OtherDoes(env: Env, prog: seq<Instr>, a: nat, id: nat, t: int, f: int, n: int,
                                     s: State) returns (s': State)
    requires (t >= 0 || f >= 0) && At(prog, a, Gen(Other(id), t, f, n).code) && s.pc == a
    ensures Does(env, prog, Other(id), t, f, a + |Gen(Other(id), t, f, n).code|, s, s')
  {
    hide Reaches, Find;
    var c := Gen(Other(id), t, f, n).code;
    CodeAt(prog, a, c, 0);
    CodeAt(prog, a, c, 1);
    CodeAt(prog, a, c, 2);
    s' := TestDoes(env, prog, a, id, s);
    StepOn(env, prog, s, s');
    s' := Step(env, prog, s');
    if t >= 0 && f >= 0 && env(id, s.tr).0 % WORD == 0 {
      CodeAt(prog, a, c, 3);
      StepOn(env, prog, s, s');
      s' := Step(env, prog, s');
    }
  }

  lemma {:induction false} AndIs(l: Node, r: Node, t: int, f: int, n: int)
    ensures var (lab, n1) := if f < 0 then (n, n + 1) else (f, n);
      var x := Gen(l, -1, lab, n1);
      var y := Gen(r, t, f, x.next);
      Gen(AndAnd(l, r), t, f, n) == Out(x.code + y.code + DefIf(f < 0, lab), y.next)
  {
  }

  lemma {:induction false} OrIs(l: Node, r: Node, t: int, f: int, n: int)
    ensures var (lab, n1) := if t < 0 then (n, n + 1) else (t, n);
      var x := Gen(l, lab, -1, n1);
      var y := Gen(r, t, f, x.next);
      Gen(OrOr(l, r), t, f, n) == Out(x.code + y.code + DefIf(t < 0, lab), y.next)
  {
  }

  lemma {:induction false} AndParts(prog: seq<Instr>, a: nat, l: Node, r: Node, t: int, f: int, n: int)
    requires var g := Gen(AndAnd(l, r), t, f, n); At(prog, a, g.code) && Own(prog, a, a + |g.code|, n, g.next)
    ensures var (lab, n1) := if f < 0 then (n, n + 1) else (f, n);
      var x := Gen(l, -1, lab, n1);
      var y := Gen(r, t, f, x.next);
      var (b, q) := (a + |x.code|, a + |x.code| + |y.code|);
      && At(prog, a, x.code) && Own(prog, a, b, n1, x.next)
      && At(prog, b, y.code) && Own(prog, b, q, x.next, y.next) && n1 <= x.next
      && (f < 0 ==> Find(prog, lab) == q < |prog| && prog[q] == LabelDef(lab))
  {
    hide At, Own, Find, DefsIn, DefIf, Gen;
    AndIs(l, r, t, f, n);
    var (lab, n1) := if f < 0 then (n, n + 1) else (f, n);
    var x := Gen(l, -1, lab, n1);
    GenLabels(l, -1, lab, n1);
    GenLabels(r, t, f, x.next);
    PairParts(prog, a, x, Gen(r, t, f, x.next), n1, f < 0, lab, n);
  }

  lemma {:induction false} OrParts(prog: seq<Instr>, a: nat, l: Node, r: Node, t: int, f: int, n: int)
    requires var g := Gen(OrOr(l, r), t, f, n); At(prog, a, g.code) && Own(prog, a, a + |g.code|, n, g.next)
    ensures var (lab, n1) := if t < 0 then (n, n + 1) else (t, n);
      var x := Gen(l, lab, -1, n1);
      var y := Gen(r, t, f, x.next);
      var (b, q) := (a + |x.code|, a + |x.code| + |y.code|);
      && At(prog, a, x.code) && Own(prog, a, b, n1, x.next)
      && At(prog, b, y.code) && Own(prog, b, q, x.next, y.next) && n1 <= x.next
      && (t < 0 ==> Find(prog, lab) == q < |prog| && prog[q] == LabelDef(lab))
  {
    hide At, Own, Find, DefsIn, DefIf, Gen;
    OrIs(l, r, t, f, n);
    var (lab, n1) := if t < 0 then (n, n + 1) else (t, n);
    var x := Gen(l, lab, -1, n1);
    GenLabels(l, lab, -1, n1);
    GenLabels(r, t, f, x.next);
    PairParts(prog, a, x, Gen(r, t, f, x.next), n1, t < 0, lab, n);
  }

  lemma {:induction false} AndDoes(env: Env, prog: seq<Instr>, a: nat, l: Node, r: Node, t: int, f: int, n: int,
                                   s: State)
    returns (s': State)
    requires (t >= 0 || f >= 0) && n >= 0 && s.pc == a
    requires var g := Gen(AndAnd(l, r), t, f, n); At(prog, a, g.code) && Own(prog, a, a + |g.code|, n, g.next)
    ensures Does(env, prog, AndAnd(l, r), t, f, a + |Gen(AndAnd(l, r), t, f, n).code|, s, s')
    decreases AndAnd(l, r), 0
  {
    hide Reaches, Find, At, Own, Gen;
    AndIs(l, r, t, f, n);
    var (lab, n1) := if f < 0 then (n, n + 1) else (f, n);
    var x := Gen(l, -1, lab, n1);
    AndParts(prog, a, l, r, t, f, n);
    s' := Correct(env, prog, a, l, -1, lab, n1, s);
    if Eval(env, l, s.tr).0 {
      var m := Correct(env, prog, a + |x.code|, r, t, f, x.next, s');
      ReachesTrans(env, prog, s, s', m);
      s' := m;
    }
    if f < 0 && !Eval(env, AndAnd(l, r), s.tr).0 {
      s' := OverDef(env, prog, s, s', lab);
    }
  }

  lemma {:induction false} OrDoes(env: Env, prog: seq<Instr>, a: nat, l: Node, r: Node, t: int, f: int, n: int,
                                  s: State)
    returns (s': State)
    requires (t >= 0 || f >= 0) && n >= 0 && s.pc == a
    requires var g := Gen(OrOr(l, r), t, f, n); At(prog, a, g.code) && Own(prog, a, a + |g.code|, n, g.next)
    ensures Does(env, prog, OrOr(l, r), t, f, a + |Gen(OrOr(l, r), t, f, n).code|, s, s')
    decreases OrOr(l, r), 0
  {
    hide Reaches, Find, At, Own, Gen;
    OrIs(l, r, t, f, n);
    var (lab, n1) := if t < 0 then (n, n + 1) else (t, n);
    var x := Gen(l, lab, -1, n1);
    OrParts(prog, a, l, r, t, f, n);
    s' := Correct(env, prog, a, l, lab, -1, n1, s);
    if !Eval(env, l, s.tr).0 {
      var m := Correct(env, prog, a + |x.code|, r, t, f, x.next, s');
      ReachesTrans(env, prog, s, s', m);
      s' := m;
    }
    if t < 0 && Eval(env, OrOr(l, r), s.tr).0 {
      s' := OverDef(env, prog, s, s', lab);
    }
  }

  /** What conditional code owns, told by positions alone. */
  lemma {:induction false} QuestOwns(prog: seq<Instr>, p0: nat, p1: nat, p2: nat, p4: nat, na: int, nb: int, nd: int,
                                     n2: int,
                  t: bool, tlab: int, f: bool, flab: int, n: int)
    requires p0 <= p1 <= p2 < p4 && p2 < |prog| && n <= n2 < na <= nb <= nd && !(t && f)
    requires (t ==> n == tlab < n2) && (f ==> n == flab < n2)
    requires DefsAt(prog, p0, p1, n2 + 1, na) && DefsAt(prog, p1, p2, na, nb) && DefsAt(prog, p2 + 1, p4, nb, nd)
    requires prog[p2] == LabelDef(n2) && Own(prog, p0, p4 + if t || f then 1 else 0, n, nd)
    requires (t ==> p4 < |prog| && prog[p4] == LabelDef(tlab)) && (f ==> p4 < |prog| && prog[p4] == LabelDef(flab))
    ensures Own(prog, p0, p1, n2 + 1, na) && Own(prog, p1, p2, na, nb) && Own(prog, p2 + 1, p4, nb, nd)
    ensures Find(prog, n2) == p2 && (t ==> Find(prog, tlab) == p4) && (f ==> Find(prog, flab) == p4)
  {
    hide Find;
    var end := p4 + if t || f then 1 else 0;
    FindOwn(prog, p0, end, n, nd, p2, n2);
    if t {
      FindOwn(prog, p0, end, n, nd, p4, tlab);
    } else if f {
      FindOwn(prog, p0, end, n, nd, p4, flab);
    }
  }

  lemma {:induction false} QuestAt(prog: seq<Instr>, at: nat, a: seq<Instr>, b: seq<Instr>, n2: int, d: seq<Instr>,
                                   t: bool, tlab: int, f: bool, flab: int)
    requires !(t && f) && At(prog, at, a + b + [LabelDef(n2)] + d + DefIf(t, tlab) + DefIf(f, flab))
    ensures At(prog, at, a) && At(prog, at + |a|, b) && At(prog, at + |a| + |b| + 1, d)
    ensures |a + b + [LabelDef(n2)] + d + DefIf(t, tlab) + DefIf(f, flab)| == |a| + |b| + 1 + |d| + if t ||
            f then 1 else 0
    ensures at + |a| + |b| < |prog| && prog[at + |a| + |b|] == LabelDef(n2)
    ensures var q := at + |a| + |b| + 1 + |d|;
      (t ==> q < |prog| && prog[q] == LabelDef(tlab)) && (f ==> q < |prog| && prog[q] == LabelDef(flab))
  {
    hide At, DefIf;
    EndsAt(prog, at, a + b + [LabelDef(n2)] + d, t, tlab, f, flab);
    JoinedAt(prog, at, a, b, n2, d);
  }

  lemma {:induction false} JoinedAt(prog: seq<Instr>, at: nat, a: seq<Instr>, b: seq<Instr>, lab: int, d: seq<Instr>)
    requires At(prog, at, a + b + [LabelDef(lab)] + d)
    ensures At(prog, at, a) && At(prog, at + |a|, b) && At(prog, at + |a| + |b| + 1, d)
    ensures at + |a| + |b| < |prog| && prog[at + |a| + |b|] == LabelDef(lab)
  {
    hide At;
    AtSplit(prog, at, a + b + [LabelDef(lab)], d);
    AtSplit(prog, at, a + b, [LabelDef(lab)]);
    AtSplit(prog, at, a, b);
    LabelAt(prog, at + |a| + |b|, lab);
  }

  lemma {:induction false} LabelAt(prog: seq<Instr>, at: nat, lab: int)
    requires At(prog, at, [LabelDef(lab)])
    ensures at < |prog| && prog[at] == LabelDef(lab)
  {
    CodeAt(prog, at, [LabelDef(lab)], 0);
  }

  /** Code with up to one label behind it. */
  lemma {:induction false} EndsAt(prog: seq<Instr>, at: nat, c: seq<Instr>, t: bool, tlab: int, f: bool, flab: int)
    requires !(t && f) && At(prog, at, c + DefIf(t, tlab) + DefIf(f, flab))
    ensures At(prog, at, c) && |c + DefIf(t, tlab) + DefIf(f, flab)| == |c| + if t || f then 1 else 0
    ensures t ==> at + |c| < |prog| && prog[at + |c|] == LabelDef(tlab)
    ensures f ==> at + |c| < |prog| && prog[at + |c|] == LabelDef(flab)
  {
    hide At;
    AtSplit(prog, at, c + DefIf(t, tlab), DefIf(f, flab));
    AtSplit(prog, at, c, DefIf(t, tlab));
    if t {
      LabelAt(prog, at + |c|, tlab);
    } else if f {
      LabelAt(prog, at + |c|, flab);
    }
  }

  lemma {:induction false} QuestParts(prog: seq<Instr>, a: nat, c: Node, y: Node, z: Node, t: int, f: int, n: int)
    requires t >= 0 || f >= 0
    requires var g := Gen(Quest(c, y, z), t, f, n); At(prog, a, g.code) && Own(prog, a, a + |g.code|, n, g.next)
    ensures var q := QuestPieces(c, y, z, t, f, n);
      var p1 := a + |q.cond.code|;
      var p2 := p1 + |q.yes.code|;
      var p4 := p2 + 1 + |q.no.code|;
      && n <= q.lab < q.cond.next <= q.yes.next
      && At(prog, a, q.cond.code) && Own(prog, a, p1, q.lab + 1, q.cond.next)
      && At(prog, p1, q.yes.code) && Own(prog, p1, p2, q.cond.next, q.yes.next)
      && At(prog, p2 + 1, q.no.code) && Own(prog, p2 + 1, p4, q.yes.next, q.no.next)
      && Find(prog, q.lab) == p2 < |prog| && prog[p2] == LabelDef(q.lab)
      && (t < 0 ==> Find(prog, q.tlab) == p4 < |prog| && prog[p4] == LabelDef(q.tlab))
      && (f < 0 ==> Find(prog, q.flab) == p4 < |prog| && prog[p4] == LabelDef(q.flab))
      && a + |Gen(Quest(c, y, z), t, f, n).code| == p4 + if t < 0 || f < 0 then 1 else 0
  {
    hide Find, At, Own, DefsIn, DefsAt, Gen;
    QuestIs(c, y, z, t, f, n);
    var q := QuestPieces(c, y, z, t, f, n);
    GenLabels(c, -1, q.lab, q.lab + 1);
    GenLabels(y, q.tlab, q.flab, q.cond.next);
    GenLabels(z, t, f, q.yes.next);
    var p1 := a + |q.cond.code|;
    var p2 := p1 + |q.yes.code|;
    QuestAt(prog, a, q.cond.code, q.yes.code, q.lab, q.no.code, t < 0, q.tlab, f < 0, q.flab);
    AtDefs(prog, a, q.cond.code, q.lab + 1, q.cond.next);
    AtDefs(prog, p1, q.yes.code, q.cond.next, q.yes.next);
    AtDefs(prog, p2 + 1, q.no.code, q.yes.next, q.no.next);
    QuestOwns(prog, a, p1, p2, p2 + 1 + |q.no.code|, q.cond.next, q.yes.next, q.no.next, q.lab,
              t < 0, q.tlab, f < 0, q.flab, n);
  }

  lemma {:induction false} QuestDoes(env: Env, prog: seq<Instr>, a: nat, c: Node, y: Node, z: Node, t: int, f: int,
                                     n: int, s: State)
    returns (s': State)
    requires (t >= 0 || f >= 0) && n >= 0 && s.pc == a
    requires var g := Gen(Quest(c, y, z), t, f, n); At(prog, a, g.code) && Own(prog, a, a + |g.code|, n, g.next)
    ensures Does(env, prog, Quest(c, y, z), t, f, a + |Gen(Quest(c, y, z), t, f, n).code|, s, s')
    decreases Quest(c, y, z), 0
  {
    hide Reaches, Find, At, Own, Gen;
    var q := QuestPieces(c, y, z, t, f, n);
    QuestParts(prog, a, c, y, z, t, f, n);
    s' := Correct(env, prog, a, c, -1, q.lab, q.lab + 1, s);
    var m;
    if Eval(env, c, s.tr).0 {
      m := Correct(env, prog, a + |q.cond.code|, y, q.tlab, q.flab, q.cond.next, s');
    } else {
      s' := OverDef(env, prog, s, s', q.lab);
      m := Correct(env, prog, a + |q.cond.code| + |q.yes.code| + 1, z, t, f, q.yes.next, s');
    }
    ReachesTrans(env, prog, s, s', m);
    s' := m;
    if (if Eval(env, Quest(c, y, z), s.tr).0 then t else f) < 0 {
      s' := OverDef(env, prog, s, s', if t < 0 then q.tlab else q.flab);
    }
  }

  lemma {:induction false} CommaDoes(env: Env, prog: seq<Instr>, a: nat, id: nat, g: Out, n: int, s: State)
    returns (m: State)
    requires At(prog, a, [Compute(id)] + g.code) && Own(prog, a, a + 1 + |g.code|, n, g.next) && s.pc == a
    ensures At(prog, a + 1, g.code) && Own(prog, a + 1, a + 1 + |g.code|, n, g.next)
    ensures Reaches(env, prog, s, m) && m.pc == a + 1 && m.tr == s.tr + [id]
  {
    CodeAt(prog, a, [Compute(id)] + g.code, 0);
    AtSplit(prog, a, [Compute(id)], g.code);
    ReachesStep(env, prog, s);
    m := Step(env, prog, s);
  }

  /** The emitted code takes every expression to the label its short-circuit value calls for, or lets
      it fall through, and evaluates the same things in the same order. */
  lemma {:induction false} Correct(env: Env, prog: seq<Instr>, a: nat, p: Node, t: int, f: int, n: int, s: State)
    returns (s': State)
    requires (t >= 0 || f >= 0) && n >= 0 && s.pc == a
    requires var g := Gen(p, t, f, n); At(prog, a, g.code) && Own(prog, a, a + |g.code|, n, g.next)
    ensures Does(env, prog, p, t, f, a + |Gen(p, t, f, n).code|, s, s')
    decreases p, 1
  {
    hide Reaches, Find, At, Own, GenRel, Holds;
    match p
    case Rel(op, id, kind) => s' := RelDoes(env, prog, a, op, id, kind, t, f, n, s);
    case AndAnd(l, r) => s' := AndDoes(env, prog, a, l, r, t, f, n, s);
    case OrOr(l, r) => s' := OrDoes(env, prog, a, l, r, t, f, n, s);
    case Not(e) => s' := Correct(env, prog, a, e, f, t, n, s);
    case Comma(id, e) =>
      var m := CommaDoes(env, prog, a, id, Gen(e, t, f, n), n, s);
      s' := Correct(env, prog, a + 1, e, t, f, n, m);
      ReachesTrans(env, prog, s, m, s');
    case Quest(c, y, z) => s' := QuestDoes(env, prog, a, c, y, z, t, f, n, s);
    case Icon(v, named) =>
      ReachesStep(env, prog, s);
      s' := JumpIfDoes(env, prog, a, if v != 0 || named then t else f, s, s);
    case Other(id) => s' := OtherDoes(env, prog, a, id, t, f, n, s);
  }
}
