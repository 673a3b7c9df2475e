/** `cbranch` and `cbgen` as they run: code is put out instruction by instruction, labels are taken from
    a counter. */
module Emitter {

  import opened Basics
  import opened Machine
  import opened CBranch

  class Emitter {
    var code: seq<Instr>
    var next: int
    // brcase: a comparison of longs has been put off until its branch is generated
    var deferred: bool

    constructor (next: int)
      ensures code == [] && this.next == next && !deferred
    {
      code, this.next, deferred := [], next, false;
    }

    method Emit(i: Instr)
      modifies this`code
      ensures code == old(code) + [i]
    {
      code := code + [i];
    }

    method GetLab() returns (lab: int)
      modifies this`next
      ensures lab == old(next) && next == old(next) + 1
    {
      lab := next;
      next := next + 1;
    }

    /** `cbgen` of an unconditional branch. */
    method Jmp(lab: int)
      modifies this`code
      ensures code == old(code) + [Jump(lab)]
    {
      Emit(Jump(lab));
    }

    /** `cbgen` of a condition: one branch, or the three of a comparison of longs. */
    method CbGen(op: RelOp, lab: int)
      modifies this
      ensures !deferred
      ensures !old(deferred) ==> code == old(code) + [Instr.Branch(op, lab)] && next == old(next)
      ensures old(deferred) ==>
        var (a, b, c) := LongBranches(op);
        && next == old(next) + 1
        && code == old(code) + ([Upper] + Opt(a, lab) + Opt(b, old(next)) + [Lower, Instr.Branch(c, lab),
          LabelDef(old(next))])
    {
      if deferred {
        var (a, b, c) := LongBranches(op);
        var lab1f := GetLab();
        Emit(Upper);
        if a.Some? {
          Emit(Instr.Branch(a.value, lab));
        }
        if b.Some? {
          Emit(Instr.Branch(b.value, lab1f));
        }
        Emit(Lower);
        Emit(Instr.Branch(c, lab));
        Emit(LabelDef(lab1f));
      } else {
        Emit(Instr.Branch(op, lab));
      }
      deferred := false;
    }

    /** The relational cases of `cbranch`, once negation is settled: compare and branch to lab. */
    method Relation(op: RelOp, id: nat, kind: Kind, lab: int)
      requires !deferred
      modifies this
      ensures !deferred && code == old(code) + GenRel(op, id, kind, lab, old(next)).code
      ensures next == GenRel(op, id, kind, lab, old(next)).next
    {
      hide LongBranches, Opt;
      Emit(Compute(id));
      match kind
      case Words =>
        Emit(Cmp);
        CbGen(op, lab);
      case Longs =>
        deferred := true;
        CbGen(op, lab);
      case WithZero =>
        Emit(Test);
        Zero(op, lab);
    }

    /** Against the constant 0, a condition on unsigned numbers is simplified. */
    method Zero(op: RelOp, lab: int)
      requires !deferred
      modifies this
      ensures !deferred && next == old(next)
      ensures forall id: nat :: old(code) + GenRel(op, id, WithZero, lab, next).code[2..] == code
    {
      match op
      case UGT => CbGen(NE, lab);
      case ULE => CbGen(EQ, lab);
      case UGE => Jmp(lab);
      case ULT =>
      case _ => CbGen(op, lab);
    }

    /** `cbranch` */
    method CBranch(p: Node, t: int, f: int)
      requires !deferred
      modifies this
      ensures !deferred && code == old(code) + Gen(p, t, f, old(next)).code && next == Gen(p, t, f, old(next)).next
      decreases p, 2
    {
      hide GenRel;
      match p
      case Rel(op, id, kind) =>
        var o, true_, false_ := op, t, f;
        if true_ < 0 {
          o := Negated(o);
          true_, false_ := false_, -1;
        }
        Relation(o, id, kind, true_);
        if false_ >= 0 {
          Jmp(false_);
        }
      case AndAnd(l, r) =>
        Both(l, r, t, f);
      case OrOr(l, r) =>
        Either(l, r, t, f);
      case Not(e) =>
        CBranch(e, f, t);
      case Comma(id, e) =>
        Emit(Compute(id));
        CBranch(e, t, f);
      case Quest(c, y, z) =>
        Conditional(c, y, z, t, f);
      case Icon(v, named) =>
        if v != 0 || named {
          if t >= 0 {
            Jmp(t);
          }
        } else if f >= 0 {
          Jmp(f);
        }
      case Other(id) =>
        Emit(Compute(id));
        Emit(Test);
        if t >= 0 {
          CbGen(NE, t);
        }
        if f >= 0 {
          if t >= 0 {
            Jmp(f);
          } else {
            CbGen(EQ, f);
          }
        }
    }

    method Both(l: Node, r: Node, t: int, f: int)
      requires !deferred
      modifies this
      ensures !deferred && code == old(code) + Gen(AndAnd(l, r), t, f, old(next)).code
      ensures next == Gen(AndAnd(l, r), t, f, old(next)).next
      decreases AndAnd(l, r), 0
    {
      ghost var before := code;
      var lab := f;
      if f < 0 {
        lab := GetLab();
      }
      ghost var a := Gen(l, -1, lab, next);
      ghost var b := Gen(r, t, f, a.next);
      CBranch(l, -1, lab);
      CBranch(r, t, f);
      if f < 0 {
        Emit(LabelDef(lab));
      }
      Rejoin(before, a.code, b.code, DefIf(f < 0, lab));
    }

    method Either(l: Node, r: Node, t: int, f: int)
      requires !deferred
      modifies this
      ensures !deferred && code == old(code) + Gen(OrOr(l, r), t, f, old(next)).code
      ensures next == Gen(OrOr(l, r), t, f, old(next)).next
      decreases OrOr(l, r), 0
    {
      ghost var before := code;
      var lab := t;
      if t < 0 {
        lab := GetLab();
      }
      ghost var a := Gen(l, lab, -1, next);
      ghost var b := Gen(r, t, f, a.next);
      CBranch(l, lab, -1);
      CBranch(r, t, f);
      if t < 0 {
        Emit(LabelDef(lab));
      }
      Rejoin(before, a.code, b.code, DefIf(t < 0, lab));
    }

    method Conditional(c: Node, y: Node, z: Node, t: int, f: int)
      requires !deferred
      modifies this
      ensures !deferred && code == old(code) + Gen(Quest(c, y, z), t, f, old(next)).code
      ensures next == Gen(Quest(c, y, z), t, f, old(next)).next
      decreases Quest(c, y, z), 1
    {
      hide Gen;
      ghost var q := QuestPieces(c, y, z, t, f, next);
      ghost var before := code;
      QuestGen(c, y, z, t, f, next);
      var flab, tlab := f, t;
      if f < 0 {
        flab := GetLab();
      }
      if t < 0 {
        tlab := GetLab();
      }
      Arms(c, y, z, t, f, tlab, flab);
      if t < 0 {
        Emit(LabelDef(tlab));
      }
      if f < 0 {
        Emit(LabelDef(flab));
      }
      Rejoin(before, q.cond.code + q.yes.code + [LabelDef(q.lab)] + q.no.code, DefIf(t < 0, tlab), DefIf(f < 0, flab));
    }

    /** The condition and both arms, before the labels a fall-through needs. */
    method Arms(c: Node, y: Node, z: Node, t: int, f: int, tlab: int, flab: int)
      requires !deferred
      modifies this
      ensures var a := Gen(c, -1, old(next), old(next) + 1);
        var b := Gen(y, tlab, flab, a.next);
        var d := Gen(z, t, f, b.next);
        !deferred && next == d.next && code == old(code) + (a.code + b.code + [LabelDef(old(next))] + d.code)
      decreases Quest(c, y, z), 0
    {
      ghost var before := code;
      var lab := GetLab();
      ghost var a := Gen(c, -1, lab, next);
      ghost var b := Gen(y, tlab, flab, a.next);
      CBranch(c, -1, lab);
      CBranch(y, tlab, flab);
      Emit(LabelDef(lab));
      CBranch(z, t, f);
      Rejoin(before, a.code, b.code, [LabelDef(lab)]);
      Rejoin(before, a.code + b.code + [LabelDef(lab)], Gen(z, t, f, b.next).code, []);
    }
  }

  lemma {:induction false} QuestGen(c: Node, y: Node, z: Node, t: int, f: int, n: int)
    ensures var q := QuestPieces(c, y, z, t, f, n);
      Gen(Quest(c, y, z), t, f, n) ==
      Out(q.cond.code + q.yes.code + [LabelDef(q.lab)] + q.no.code + DefIf(t < 0, q.tlab) + DefIf(f < 0, q.flab),
        q.no.next)
  {
  }

  lemma {:induction false} Rejoin(a: seq<Instr>, b: seq<Instr>, c: seq<Instr>, d: seq<Instr>)
    ensures a + b + c + d == a + (b + c + d) && a + b + c == a + (b + c)
  {
  }

  /** A whole conditional jump: the compiled expression followed by anything, run from its start. */
  method Compiled(env: Env, p: Node, t: int, f: int, n: int, rest: seq<Instr>, v: (nat, nat))
    returns (prog: seq<Instr>, ghost last: State)
    requires (t >= 0 || f >= 0) && n >= 0 && t < n && f < n
    requires forall i: nat :: i < |rest| && rest[i].LabelDef? ==> rest[i].lab < n
    ensures |rest| <= |prog| && prog[|prog| - |rest|..] == rest
    ensures Does(env, prog, p, t, f, |prog| - |rest|, State(0, v, 0, 0, []), last)
  {
    hide Gen;
    var e := new Emitter(n);
    e.CBranch(p, t, f);
    prog := e.code + rest;
    ghost var g := Gen(p, t, f, n);
    assert e.code == g.code;
    GenLabels(p, t, f, n);
    assert prog[0..0 + |e.code|] == e.code;
    last := Correct(env, prog, 0, p, t, f, n, State(0, v, 0, 0, []));
  }
}
