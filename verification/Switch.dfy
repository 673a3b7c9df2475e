/** Dispatch code for `switch` (`genswitch` and `genbinary` of code.c), as functions, and what it does. */
module Switch {

  import opened Machine

  /** An entry of the switch table. Entry 0 of a switch holds the default label, negative if there is
      none; the others hold a case value and its label. */
  datatype Case = Case(sval: int, slab: int)

  // The size of the switch table, entries 0 included
  const SWITSZ := 250

  predicate Ascending(p: seq<Case>) {
    forall i, j :: 1 <= i < j < |p| ==> p[i].sval < p[j].sval
  }

  /** A finished switch: values of an int, in order, and labels given to the cases. */
  predicate Wellformed(p: seq<Case>) {
    && 1 <= |p| <= SWITSZ && Ascending(p)
    && forall i :: 1 <= i < |p| ==> -32768 <= p[i].sval < 32768 && p[i].slab >= 0
  }

  /** The label that x selects among entries lo to hi, with d as the default. */
  function Pick(p: seq<Case>, lo: nat, hi: int, x: int, d: int): int
    requires hi < |p|
    decreases hi - lo
  {
    if lo > hi then d
    else if p[lo].sval == x then p[lo].slab
    else Pick(p, lo + 1, hi, x, d)
  }

  /** Pick finds the case with the value, wherever it is, and the default only when there is none. */
  lemma {:induction false} PickIs(p: seq<Case>, lo: nat, hi: int, x: int, d: int)
    requires 1 <= lo && hi < |p| && Ascending(p)
    ensures forall i :: lo <= i <= hi && p[i].sval == x ==> Pick(p, lo, hi, x, d) == p[i].slab
    ensures (forall i :: lo <= i <= hi ==> p[i].sval != x) ==> Pick(p, lo, hi, x, d) == d
    decreases hi - lo
  {
    if lo <= hi && p[lo].sval != x {
      PickIs(p, lo + 1, hi, x, d);
    }
  }

  // ---------------------------------------------------------------------------------------
  // The code

  /** Compares, one after the other. */
  function Chain(p: seq<Case>, lo: nat, hi: int): seq<Instr>
    requires hi < |p|
    decreases hi - lo
  {
    if lo > hi then [] else Chain(p, lo, hi - 1) + [CmpConst(p[hi].sval), Branch(EQ, p[hi].slab)]
  }

  function GenBinary(p: seq<Case>, lo: nat, hi: int, n: int): Out
    requires 1 <= lo <= hi + 1 <= |p|
    decreases hi - lo
  {
    if hi - lo > 4 then
      var i := lo + (hi - lo) / 2;
      var left := GenBinary(p, lo, i - 1, n + 1);
      var right := GenBinary(p, i + 1, hi, left.next);
      Out([CmpConst(p[i].sval), Branch(EQ, p[i].slab), Branch(GT, n)] + left.code + [LabelDef(n)] + right.code,
        right.next)
    else
      Out(Chain(p, lo, hi) + JumpIf(p[0].slab), n)
  }

  function Range(p: seq<Case>): int
    requires |p| >= 2
  {
    p[|p| - 1].sval - p[1].sval
  }

  /** The labels of all values from the smallest case to the largest. */
  function Table(p: seq<Case>, d: int): (words: seq<int>)
    requires |p| >= 2 && Range(p) >= 0
  {
    seq(Range(p) + 1, k => Pick(p, 1, |p| - 1, p[1].sval + k, d))
  }

  function SubIf(k: int): seq<Instr> {
    if k != 0 then [SubConst(k)] else []
  }

  function GenDirect(p: seq<Case>, n: int): Out
    requires |p| >= 2 && Range(p) >= 0
  {
    var (d, n1) := if p[0].slab >= 0 then (p[0].slab, n) else (n, n + 1);
    Out(SubIf(p[1].sval) + [CmpConst(Range(p)), Branch(UGT, d), Shl, Xchg, JumpTable(Table(p,
      d))] + DefIf(p[0].slab < 0, d), n1 + 1)
  }

  function GenSwitch(p: seq<Case>, n: int): Out
    requires |p| >= 1
  {
    var m := |p| - 1;
    if m >= 4 && 0 < Range(p) <= 3 * m then GenDirect(p, n) else GenBinary(p, 1, m, n)
  }

  // ---------------------------------------------------------------------------------------
  // What it does

  /** From s the machine comes to label lab, or to end if lab is negative, with ax kept. */
  ghost predicate Goes(env: Env, prog: seq<Instr>, lab: int, end: nat, s: State, s': State) {
    Reaches(env, prog, s, s') && s'.pc == Dest(prog, lab, end) && s'.v == s.v && s'.tr == s.tr
  }

  predicate Ax(s: State, x: int) {
    s.v.0 < WORD && x == Signed(s.v.0, WORD)
  }

  /** One compare and its branch on equality; the flags stay. */
  lemma {:induction false} CompareGoes(env: Env, prog: seq<Instr>, a: nat, k: int, lab: int, x: int, s: State, m: State)
    returns (s': State)
    requires At(prog, a, [CmpConst(k), Branch(EQ, lab)]) && m.pc == a && Reaches(env, prog, s, m) && m.v == s.v &&
             m.tr == s.tr
    requires Ax(s, x) && -32768 <= k < 32768
    ensures Reaches(env, prog, s, s') && s'.v == s.v && s'.tr == s.tr
    ensures s'.pc == if x == k then Find(prog, lab) else a + 2
    ensures s'.x == s.v.0 && s'.y == k % WORD
  {
    CodeAt(prog, a, [CmpConst(k), Branch(EQ, lab)], 0);
    CodeAt(prog, a, [CmpConst(k), Branch(EQ, lab)], 1);
    StepOn(env, prog, s, m);
    s' := Step(env, prog, m);
    StepOn(env, prog, s, s');
    s' := Step(env, prog, s');
  }

  /** The node of the search: equal, greater, or on. */
  lemma {:induction false} NodeGoes(env: Env, prog: seq<Instr>, a: nat, k: int, lab: int, more: int, x: int,
                                    s: State) returns (s': State)
    requires At(prog, a, [CmpConst(k), Branch(EQ, lab), Branch(GT, more)]) && s.pc == a
    requires Ax(s, x) && -32768 <= k < 32768
    ensures Reaches(env, prog, s, s') && s'.v == s.v && s'.tr == s.tr
    ensures s'.pc == if x == k then Find(prog, lab) else if x > k then Find(prog, more) else a + 3
  {
    var c := [CmpConst(k), Branch(EQ, lab)];
    assert [CmpConst(k), Branch(EQ, lab), Branch(GT, more)] == c + [Branch(GT, more)];
    AtSplit(prog, a, c, [Branch(GT, more)]);
    CodeAt(prog, a + 2, [Branch(GT, more)], 0);
    ReachesStep(env, prog, s);
    s' := CompareGoes(env, prog, a, k, lab, x, s, s);
    if x != k {
      StepOn(env, prog, s, s');
      s' := Step(env, prog, s');
    }
  }

  lemma {:induction false} ChainGoes(env: Env, prog: seq<Instr>, a: nat, p: seq<Case>, lo: nat, hi: int, x: int,
                                     s: State)
    returns (s': State)
    requires 1 <= lo && hi < |p| && Wellformed(p) && At(prog, a, Chain(p, lo, hi)) && s.pc == a && Ax(s, x)
    ensures Goes(env, prog, Pick(p, lo, hi, x, -1), a + |Chain(p, lo, hi)|, s, s')
    decreases hi - lo
  {
    PickIs(p, lo, hi, x, -1);
    if lo > hi {
      ReachesStep(env, prog, s);
      s' := s;
    } else {
      var tail := [CmpConst(p[hi].sval), Branch(EQ, p[hi].slab)];
      AtSplit(prog, a, Chain(p, lo, hi - 1), tail);
      s' := ChainGoes(env, prog, a, p, lo, hi - 1, x, s);
      PickIs(p, lo, hi - 1, x, -1);
      if Pick(p, lo, hi - 1, x, -1) < 0 {
        s' := CompareGoes(env, prog, a + |Chain(p, lo, hi - 1)|, p[hi].sval, p[hi].slab, x, s, s');
      }
    }
  }

  lemma {:induction false} ChainPlain(p: seq<Case>, lo: nat, hi: int, n: int)
    requires hi < |p|
    ensures DefsIn(Chain(p, lo, hi), n, n)
    decreases hi - lo
  {
    if lo <= hi {
      ChainPlain(p, lo, hi - 1, n);
    }
  }

  lemma {:induction false} LevelLabels(k: int, lab: int, left: Out, right: Out, n: int)
    requires DefsIn(left.code, n + 1, left.next) && DefsIn(right.code, left.next, right.next)
    requires n < left.next <= right.next
    ensures DefsIn([CmpConst(k), Branch(EQ, lab), Branch(GT, n)] + left.code + [LabelDef(n)] + right.code, n,
            right.next)
  {
  }

  lemma {:induction false} BinaryLabels(p: seq<Case>, lo: nat, hi: int, n: int)
    requires 1 <= lo <= hi + 1 <= |p|
    ensures var g := GenBinary(p, lo, hi, n); n <= g.next && DefsIn(g.code, n, g.next)
    decreases hi - lo
  {
    hide DefsIn, Chain, JumpIf;
    if hi - lo > 4 {
      var i := lo + (hi - lo) / 2;
      var left := GenBinary(p, lo, i - 1, n + 1);
      var right := GenBinary(p, i + 1, hi, left.next);
      BinaryLabels(p, lo, i - 1, n + 1);
      BinaryLabels(p, i + 1, hi, left.next);
      LevelLabels(p[i].sval, p[i].slab, left, right, n);
    } else {
      ChainPlain(p, lo, hi, n);
      JumpPlain(p[0].slab, n);
      Defs2(Chain(p, lo, hi), JumpIf(p[0].slab), n, n, n, n);
    }
  }

  lemma {:induction false} JumpPlain(lab: int, n: int)
    ensures DefsIn(JumpIf(lab), n, n)
  {
  }

  /** The pieces of one level of the search. */
  lemma {:induction false} BinaryParts(prog: seq<Instr>, a: nat, p: seq<Case>, lo: nat, hi: int, n: int, i: nat,
                                       left: Out, right: Out)
    requires 1 <= lo && hi < |p| && hi - lo > 4 && i == lo + (hi - lo) / 2
    requires left == GenBinary(p, lo, i - 1, n + 1) && right == GenBinary(p, i + 1, hi, left.next)
    requires var g := GenBinary(p, lo, hi, n); At(prog, a, g.code) && Own(prog, a, a + |g.code|, n, g.next)
    ensures At(prog, a, [CmpConst(p[i].sval), Branch(EQ, p[i].slab), Branch(GT, n)])
    ensures var q := a + 3 + |left.code|;
      && At(prog, a + 3, left.code) && Own(prog, a + 3, q, n + 1, left.next)
      && Find(prog, n) == q < |prog| && prog[q] == LabelDef(n)
      && At(prog, q + 1, right.code) && Own(prog, q + 1, q + 1 + |right.code|, left.next, right.next)
      && a + |GenBinary(p, lo, hi, n).code| == q + 1 + |right.code|
  {
    hide Find, At, Own;
    BinaryLabels(p, lo, i - 1, n + 1);
    BinaryLabels(p, i + 1, hi, left.next);
    LevelParts(prog, a, [CmpConst(p[i].sval), Branch(EQ, p[i].slab), Branch(GT, n)], left, right, n);
  }

  lemma {:induction false} LevelParts(prog: seq<Instr>, a: nat, head: seq<Instr>, left: Out, right: Out, n: int)
    requires DefsIn(head, n, n) && DefsIn(left.code, n + 1, left.next) && DefsIn(right.code, left.next, right.next)
    requires n < left.next <= right.next
    requires var c := head + left.code + [LabelDef(n)] + right.code;
      At(prog, a, c) && Own(prog, a, a + |c|, n, right.next)
    ensures var q := a + |head| + |left.code|;
      && At(prog, a, head)
      && At(prog, a + |head|, left.code) && Own(prog, a + |head|, q, n + 1, left.next)
      && Find(prog, n) == q < |prog| && prog[q] == LabelDef(n)
      && At(prog, q + 1, right.code) && Own(prog, q + 1, q + 1 + |right.code|, left.next, right.next)
  {
    hide Find, At, DefsIn;
    var q := a + |head| + |left.code|;
    AtSplit(prog, a, head + left.code + [LabelDef(n)], right.code);
    AtSplit(prog, a, head + left.code, [LabelDef(n)]);
    AtSplit(prog, a, head, left.code);
    CodeAt(prog, q, [LabelDef(n)], 0);
    AtDefs(prog, a, head, n, n);
    AtDefs(prog, a + |head|, left.code, n + 1, left.next);
    AtDefs(prog, q + 1, right.code, left.next, right.next);
    FindOwn(prog, a, q + 1 + |right.code|, n, right.next, q, n);
  }

  /** Which side of the search decides. */
  lemma {:induction false} PickSplit(p: seq<Case>, lo: nat, i: nat, hi: int, x: int, d: int)
    requires 1 <= lo <= i <= hi < |p| && Ascending(p)
    ensures Pick(p, lo, hi, x, d) ==
      if x == p[i].sval then p[i].slab
      else if x > p[i].sval then Pick(p, i + 1, hi, x, d)
      else Pick(p, lo, i - 1, x, d)
  {
    PickIs(p, lo, hi, x, d);
    PickIs(p, i + 1, hi, x, d);
    PickIs(p, lo, i - 1, x, d);
  }

  /** What the left half does not find, when there is no default, is smaller than all of the right. */
  lemma {:induction false} PickNone(p: seq<Case>, lo: nat, i: nat, hi: int, x: int)
    requires 1 <= lo <= i <= hi < |p| && Wellformed(p) && x < p[i].sval
    requires Pick(p, lo, i - 1, x, p[0].slab) < 0
    ensures p[0].slab < 0 && Pick(p, i + 1, hi, x, p[0].slab) == p[0].slab
  {
    PickIs(p, lo, i - 1, x, p[0].slab);
    PickIs(p, i + 1, hi, x, p[0].slab);
  }

  lemma {:induction false} Gone(env: Env, prog: seq<Instr>, lab: int, end: nat, s: State, s': State)
    requires Goes(env, prog, lab, end, s, s')
    ensures Reaches(env, prog, s, s')
  {
  }

  /** The search takes x to its case, to the default, or out at the end: without a default, a left half
      that finds nothing runs on into the right half, which finds nothing either. */
  lemma {:induction false} BinaryGoes(env: Env, prog: seq<Instr>, a: nat, p: seq<Case>, lo: nat, hi: int, n: int,
                                      x: int, s: State)
    returns (s': State)
    requires 1 <= lo <= hi + 1 <= |p| && Wellformed(p) && Ax(s, x) && s.pc == a
    requires var g := GenBinary(p, lo, hi, n); At(prog, a, g.code) && Own(prog, a, a + |g.code|, n, g.next)
    ensures Goes(env, prog, Pick(p, lo, hi, x, p[0].slab), a + |GenBinary(p, lo, hi, n).code|, s, s')
    decreases hi - lo, 1
  {
    hide Find, Own, Reaches, At, Pick;
    if hi - lo > 4 {
      s' := LevelGoes(env, prog, a, p, lo, hi, n, x, s);
    } else {
      AtSplit(prog, a, Chain(p, lo, hi), JumpIf(p[0].slab));
      s' := ChainGoes(env, prog, a, p, lo, hi, x, s);
      PickIs(p, lo, hi, x, p[0].slab);
      PickIs(p, lo, hi, x, -1);
      if Pick(p, lo, hi, x, -1) < 0 {
        s' := JumpIfDoes(env, prog, a + |Chain(p, lo, hi)|, p[0].slab, s, s');
      }
    }
  }

  lemma {:induction false} LevelGoes(env: Env, prog: seq<Instr>, a: nat, p: seq<Case>, lo: nat, hi: int, n: int,
                                     x: int, s: State)
    returns (s': State)
    requires 1 <= lo && hi < |p| && hi - lo > 4 && Wellformed(p) && Ax(s, x) && s.pc == a
    requires var g := GenBinary(p, lo, hi, n); At(prog, a, g.code) && Own(prog, a, a + |g.code|, n, g.next)
    ensures Goes(env, prog, Pick(p, lo, hi, x, p[0].slab), a + |GenBinary(p, lo, hi, n).code|, s, s')
    decreases hi - lo, 0
  {
    hide Find, Own, Reaches, At, Pick, Step, GenBinary, Ascending;
    var i := lo + (hi - lo) / 2;
    var left := GenBinary(p, lo, i - 1, n + 1);
    var q := a + 3 + |left.code|;
    BinaryParts(prog, a, p, lo, hi, n, i, left, GenBinary(p, i + 1, hi, left.next));
    PickSplit(p, lo, i, hi, x, p[0].slab);
    s' := NodeGoes(env, prog, a, p[i].sval, p[i].slab, n, x, s);
    if x != p[i].sval {
      var nothing := x > p[i].sval;
      if !nothing {
        s' := LeftGoes(env, prog, a + 3, p, lo, i - 1, n + 1, x, s, s');
        nothing := Pick(p, lo, i - 1, x, p[0].slab) < 0;
        if nothing {
          PickNone(p, lo, i, hi, x);
        }
      }
      if nothing {
        s' := OverDef(env, prog, s, s', n);
        s' := LeftGoes(env, prog, q + 1, p, i + 1, hi, left.next, x, s, s');
      }
    }
  }

  /** BinaryGoes, from a state reached before. */
  lemma {:induction false} LeftGoes(env: Env, prog: seq<Instr>, a: nat, p: seq<Case>, lo: nat, hi: int, n: int,
                                    x: int, s: State, m: State)
    returns (s': State)
    requires 1 <= lo <= hi + 1 <= |p| && Wellformed(p) && Ax(m, x) && m.pc == a && Reaches(env, prog, s, m)
    requires var g := GenBinary(p, lo, hi, n); At(prog, a, g.code) && Own(prog, a, a + |g.code|, n, g.next)
    ensures Goes(env, prog, Pick(p, lo, hi, x, p[0].slab), a + |GenBinary(p, lo, hi, n).code|, m, s') &&
            Reaches(env, prog, s, s')
    decreases hi - lo, 2
  {
    hide *;
    s' := BinaryGoes(env, prog, a, p, lo, hi, n, x, m);
    assert Reaches(env, prog, m, s') by { Gone(env, prog, Pick(p, lo, hi, x, p[0].slab), a + |GenBinary(p, lo, hi,
           n).code|, m, s'); }
    ReachesTrans(env, prog, s, m, s');
  }

  // ---------------------------------------------------------------------------------------
  // The jump table

  /** The index x has in the table after the smallest case has been taken off, or something above range. */
  lemma {:induction false} Offset(lo: int, hi: int, v: int, x: int)
    requires -32768 <= lo <= hi < 32768 && 0 <= v < WORD && x == Signed(v, WORD)
    ensures var i := (v - lo) % WORD;
      (lo <= x <= hi <==> i <= hi - lo) && (lo <= x <= hi ==> i == x - lo)
  {
  }

  lemma {:induction false} SubGoes(env: Env, prog: seq<Instr>, a: nat, k: int, s: State) returns (s': State)
    requires At(prog, a, SubIf(k)) && s.pc == a && s.v.0 < WORD
    ensures Reaches(env, prog, s, s') && s' == s.(pc := a + |SubIf(k)|, v := ((s.v.0 - k) % WORD, s.v.1))
  {
    ReachesStep(env, prog, s);
    s' := s;
    if k != 0 {
      CodeAt(prog, a, SubIf(k), 0);
      s' := Step(env, prog, s);
    }
  }

  lemma {:induction false} IndexGoes(env: Env, prog: seq<Instr>, a: nat, words: seq<int>, s: State, m: State)
    returns (s': State)
    requires At(prog, a, [Shl, Xchg, JumpTable(words)]) && Reaches(env, prog, s, m)
    requires m.pc == a && m.v.0 < |words| <= 1000
    ensures Reaches(env, prog, s, s') && s'.tr == m.tr && s'.pc == Find(prog, words[m.v.0])
  {
    CodeAt(prog, a, [Shl, Xchg, JumpTable(words)], 0);
    CodeAt(prog, a, [Shl, Xchg, JumpTable(words)], 1);
    CodeAt(prog, a, [Shl, Xchg, JumpTable(words)], 2);
    StepOn(env, prog, s, m);
    s' := Step(env, prog, m);
    StepOn(env, prog, s, s');
    s' := Step(env, prog, s');
    StepOn(env, prog, s, s');
    s' := Step(env, prog, s');
  }

  /** The bounds check and the jump through the table. */
  lemma {:induction false} TableGoes(env: Env, prog: seq<Instr>, a: nat, range: int, d: int, words: seq<int>,
                                     s: State, m: State) returns (s': State)
    requires At(prog, a, [CmpConst(range), Branch(UGT, d), Shl, Xchg, JumpTable(words)]) && Reaches(env, prog, s, m)
    requires m.pc == a && m.v.0 < WORD && 0 < range < 1000 && |words| == range + 1
    ensures Reaches(env, prog, s, s') && s'.tr == m.tr
    ensures s'.pc == Find(prog, if m.v.0 <= range then words[m.v.0] else d)
  {
    hide Find;
    var check, jump := [CmpConst(range), Branch(UGT, d)], [Shl, Xchg, JumpTable(words)];
    assert [CmpConst(range), Branch(UGT, d), Shl, Xchg, JumpTable(words)] == check + jump;
    AtSplit(prog, a, check, jump);
    CodeAt(prog, a, check, 0);
    CodeAt(prog, a, check, 1);
    StepOn(env, prog, s, m);
    s' := Step(env, prog, m);
    StepOn(env, prog, s, s');
    s' := Step(env, prog, s');
    if m.v.0 <= range {
      s' := IndexGoes(env, prog, a + 2, words, s, s');
    }
  }

  /** The default label of a direct switch: its own, or one made up for falling out behind the jump. */
  function DefaultLabel(p: seq<Case>, n: int): int
    requires |p| >= 1
  {
    if p[0].slab >= 0 then p[0].slab else n
  }

  lemma {:induction false} DirectParts(prog: seq<Instr>, a: nat, p: seq<Case>, n: int)
    requires |p| >= 2 && Range(p) >= 0
    requires var g := GenDirect(p, n); At(prog, a, g.code) && Own(prog, a, a + |g.code|, n, g.next)
    ensures var d := DefaultLabel(p, n);
      var b := a + |SubIf(p[1].sval)|;
      && At(prog, a, SubIf(p[1].sval))
      && At(prog, b, [CmpConst(Range(p)), Branch(UGT, d), Shl, Xchg, JumpTable(Table(p, d))])
      && (p[0].slab < 0 ==> Find(prog, n) == b + 5 < |prog| && prog[b + 5] == LabelDef(n))
      && a + |GenDirect(p, n).code| == b + 5 + if p[0].slab < 0 then 1 else 0
  {
    hide Find, At, Table;
    var d := DefaultLabel(p, n);
    var sub, body := SubIf(p[1].sval), [CmpConst(Range(p)), Branch(UGT, d), Shl, Xchg, JumpTable(Table(p, d))];
    AtSplit(prog, a, sub + body, DefIf(p[0].slab < 0, d));
    AtSplit(prog, a, sub, body);
    if p[0].slab < 0 {
      var q := a + |sub| + 5;
      CodeAt(prog, q, [LabelDef(n)], 0);
      AtDefs(prog, a, sub, n + 1, n + 1);
      AtDefs(prog, a + |sub|, body, n + 1, n + 1);
      FindOwn(prog, a, q + 1, n, n + 2, q, n);
    }
  }

  lemma {:induction false} DirectGoes(env: Env, prog: seq<Instr>, a: nat, p: seq<Case>, n: int, x: int,
                                      s: State) returns (s': State)
    requires Wellformed(p) && |p| >= 2 && 0 < Range(p) <= 3 * (|p| - 1) && Ax(s, x) && s.pc == a && n >= 0
    requires var g := GenDirect(p, n); At(prog, a, g.code) && Own(prog, a, a + |g.code|, n, g.next)
    ensures Arrives(env, prog, Pick(p, 1, |p| - 1, x, p[0].slab), a + |GenDirect(p, n).code|, s, s')
  {
    hide Find, At, Own, Reaches, GenDirect, Pick, Step;
    var d := DefaultLabel(p, n);
    DirectParts(prog, a, p, n);
    PickIs(p, 1, |p| - 1, x, p[0].slab);
    PickIs(p, 1, |p| - 1, x, d);
    var m := SubGoes(env, prog, a, p[1].sval, s);
    Offset(p[1].sval, p[|p| - 1].sval, s.v.0, x);
    s' := TableGoes(env, prog, m.pc, Range(p), d, Table(p, d), s, m);
    if Pick(p, 1, |p| - 1, x, p[0].slab) < 0 {
      s' := OverDef(env, prog, s, s', n);
    }
  }

  /** Goes, without ax. */
  ghost predicate Arrives(env: Env, prog: seq<Instr>, lab: int, end: nat, s: State, s': State) {
    Reaches(env, prog, s, s') && s'.pc == Dest(prog, lab, end) && s'.tr == s.tr
  }

  /** However the switch is lowered, x comes to the label of its case, else to the default, else out at the end. */
  lemma {:induction false} SwitchGoes(env: Env, prog: seq<Instr>, a: nat, p: seq<Case>, n: int, x: int,
                                      s: State) returns (s': State)
    requires Wellformed(p) && Ax(s, x) && s.pc == a && n >= 0
    requires var g := GenSwitch(p, n); At(prog, a, g.code) && Own(prog, a, a + |g.code|, n, g.next)
    ensures Arrives(env, prog, Pick(p, 1, |p| - 1, x, p[0].slab), a + |GenSwitch(p, n).code|, s, s')
  {
    hide Find, At, Own, Reaches, GenDirect, GenBinary, Pick;
    if |p| >= 5 && 0 < Range(p) <= 3 * (|p| - 1) {
      s' := DirectGoes(env, prog, a, p, n, x, s);
    } else {
      s' := BinaryGoes(env, prog, a, p, 1, |p| - 1, n, x, s);
    }
  }

  /** Labels made up for the dispatch come from the free ones. */
  lemma {:induction false} SwitchLabels(p: seq<Case>, n: int)
    requires |p| >= 1
    ensures n <= GenSwitch(p, n).next && DefsIn(GenSwitch(p, n).code, n, GenSwitch(p, n).next)
  {
    hide Table, GenBinary;
    BinaryLabels(p, 1, |p| - 1, n);
  }

  // ---------------------------------------------------------------------------------------
  // Dispatch, for cases in any order

  /** The entries x selects: those of its cases, or the default. */
  ghost predicate Selects(cases: seq<Case>, d: int, x: int, lab: int) {
    if exists i :: 0 <= i < |cases| && cases[i].sval == x
    then exists i :: 0 <= i < |cases| && cases[i].sval == x && cases[i].slab == lab
    else lab == d
  }

  /** The code is placed at a, with its labels its own, and the machine stands there with x in ax. */
  ghost predicate Ready(code: seq<Instr>, n: int, next: int, prog: seq<Instr>, a: nat, x: int, s: State) {
    At(prog, a, code) && Own(prog, a, a + |code|, n, next) && s.pc == a && Ax(s, x)
  }

  ghost predicate Comes(env: Env, prog: seq<Instr>, lab: int, end: nat, s: State) {
    exists s': State :: Arrives(env, prog, lab, end, s, s')
  }

  /** The machine comes to lab, or to the end of the code at a if lab is negative. */
  ghost predicate Leads(env: Env, prog: seq<Instr>, a: nat, code: seq<Instr>, lab: int, s: State) {
    Comes(env, prog, lab, a + |code|, s)
  }

  /** Wherever the code is placed, x in ax goes from its start to the label x selects, or out at its end
      when nothing is selected. */
  ghost predicate Dispatches(code: seq<Instr>, n: int, next: int, cases: seq<Case>, d: int) {
    forall env: Env, prog: seq<Instr>, a: nat, x: int, s: State, lab: int ::
      Ready(code, n, next, prog, a, x, s) && Selects(cases, d, x, lab) ==> Leads(env, prog, a, code, lab, s)
  }

  lemma {:induction false} PickSelects(p: seq<Case>, cases: seq<Case>, x: int, lab: int)
    requires Wellformed(p) && multiset(p[1..]) == multiset(cases) && Selects(cases, p[0].slab, x, lab)
    ensures Pick(p, 1, |p| - 1, x, p[0].slab) == lab
  {
    PickIs(p, 1, |p| - 1, x, p[0].slab);
    if i :| 0 <= i < |cases| && cases[i].sval == x && cases[i].slab == lab {
      assert cases[i] in multiset(cases);
      assert cases[i] in p[1..];
    } else {
      forall j | 1 <= j < |p| ensures p[j].sval != x {
        assert p[1..][j - 1] in multiset(p[1..]);
        assert p[j] in cases;
      }
    }
  }

  lemma {:induction false} SwitchDispatches(p: seq<Case>, cases: seq<Case>, n: int)
    requires Wellformed(p) && multiset(p[1..]) == multiset(cases) && n >= 0
    ensures Dispatches(GenSwitch(p, n).code, n, GenSwitch(p, n).next, cases, p[0].slab)
  {
    hide Pick, Ascending, Find, At, Own, Reaches, GenSwitch, Selects, Arrives;
    var g := GenSwitch(p, n);
    forall env: Env, prog: seq<Instr>, a: nat, x: int, s: State, lab: int |
      Ready(g.code, n, g.next, prog, a, x, s) && Selects(cases, p[0].slab, x, lab)
      ensures Leads(env, prog, a, g.code, lab, s)
    {
      PickSelects(p, cases, x, lab);
      var s' := SwitchGoes(env, prog, a, p, n, x, s);
      assert Arrives(env, prog, lab, a + |g.code|, s, s');
    }
  }
}
