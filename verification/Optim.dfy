/** Rewriting of expressions before code is generated for them (`optim`, `ispow2`, `nncon` of optim.c and
    `conval` of trees.c). */
module Optim {

  import opened Basics
  import opened Primes
  import opened BitStream
  import opened Bitwise
  import opened Machine

  datatype Op = Plus | Minus | Mul | Div(unsigned: bool) | Ls | Bit(b: BitOp) | Rel(r: RelOp)

  /** Leaves are opaque and without side effects. A constant may have a name, and is then an address. */
  datatype Expr =
    | Leaf(id: nat)
    | Icon(lval: long, name: Option<nat>)
    | Bin(op: Op, left: Expr, right: Expr)

  /** What leaves evaluate to and where names are; 0 where nothing is said. */
  datatype Env = Env(leaf: map<nat, int>, addr: map<nat, int>)

  function Value(m: map<nat, int>, k: nat): int {
    if k in m then m[k] else 0
  }

  // ---------------------------------------------------------------------------------------
  // Values: words of n bits, taken without sign

  function Quotient(x: int, y: int): int {
    if y == 0 then 0
    else if (x < 0) == (y < 0) then (if x < 0 then -x else x) / (if y < 0 then -y else y)
    else -((if x < 0 then -x else x) / (if y < 0 then -y else y))
  }

  /** The address of a name; 0 without one. */
  function Base(name: Option<nat>, env: Env): int {
    if name.Some? then Value(env.addr, name.value) else 0
  }

  /** The lowest n bits. */
  function Word(x: int, n: nat): (v: int)
    ensures 0 <= v < Pow2(n)
  {
    x % Pow2(n)
  }

  function Apply(op: Op, x: int, y: int, n: nat): (v: int)
    requires 0 <= x < Pow2(n) && 0 <= y < Pow2(n)
    ensures 0 <= v
  {
    var m := Pow2(n);
    match op
    case Plus => Word(x + y, n)
    case Minus => Word(x - y, n)
    case Mul => Word(x * y, n)
    case Div(unsigned) => Word(if unsigned then Quotient(x, y) else Quotient(Signed(x, m), Signed(y, m)), n)
    case Ls => Word(x * Pow2(y), n)
    case Bit(b) => BitsRange(b, x, y, n); Bits(b, x, y, n)
    case Rel(r) => if Compare(r, x, y, m) then 1 else 0
  }

  function Eval(e: Expr, env: Env, n: nat): (v: int)
    requires n > 0
    ensures 0 <= v < Pow2(n)
  {
    match e
    case Leaf(id) => Word(Value(env.leaf, id), n)
    case Icon(lval, name) => Word(lval + Base(name, env), n)
    case Bin(op, l, r) =>
      ApplyRange(op, Eval(l, env, n), Eval(r, env, n), n);
      Apply(op, Eval(l, env, n), Eval(r, env, n), n)
  }

  lemma {:induction false} ApplyRange(op: Op, x: int, y: int, n: nat)
    requires 0 <= x < Pow2(n) && 0 <= y < Pow2(n) && n > 0
    ensures 0 <= Apply(op, x, y, n) < Pow2(n)
  {
    if op.Bit? {
      BitsRange(op.b, x, y, n);
    }
    assert Pow2(n) >= 2;
  }

  /** The same value, whatever the leaves and addresses are. */
  ghost predicate Same(p: Expr, q: Expr, n: nat)
    requires n > 0
  {
    forall env: Env :: Eval(p, env, n) == Eval(q, env, n)
  }

  predicate Commutes(op: Op) {
    op == Plus || op == Mul || op.Bit?
  }

  // ---------------------------------------------------------------------------------------
  // Laws

  lemma {:induction false} SameParts(op: Op, l: Expr, l': Expr, r: Expr, r': Expr, n: nat)
    requires n > 0 && Same(l, l', n) && Same(r, r', n)
    ensures Same(Bin(op, l, r), Bin(op, l', r'), n)
  {
    forall env: Env ensures Eval(Bin(op, l, r), env, n) == Eval(Bin(op, l', r'), env, n) {
      assert Eval(l, env, n) == Eval(l', env, n) && Eval(r, env, n) == Eval(r', env, n);
    }
  }

  lemma {:induction false} SameTrans(p: Expr, q: Expr, r: Expr, n: nat)
    requires n > 0 && Same(p, q, n) && Same(q, r, n)
    ensures Same(p, r, n)
  {
    forall env: Env ensures Eval(p, env, n) == Eval(r, env, n) {
      assert Eval(p, env, n) == Eval(q, env, n);
    }
  }

  lemma {:induction false} ApplySwap(op: Op, x: int, y: int, n: nat)
    requires Commutes(op) && 0 <= x < Pow2(n) && 0 <= y < Pow2(n)
    ensures Apply(op, x, y, n) == Apply(op, y, x, n)
  {
    if op.Bit? {
      BitsSwap(op.b, x, y, n);
    } else if op == Mul {
      assert x * y == y * x;
    }
  }

  lemma {:induction false} SwapSame(op: Op, l: Expr, r: Expr, n: nat)
    requires n > 0 && Commutes(op)
    ensures Same(Bin(op, l, r), Bin(op, r, l), n)
  {
    forall env: Env ensures Eval(Bin(op, l, r), env, n) == Eval(Bin(op, r, l), env, n) {
      ApplySwap(op, Eval(l, env, n), Eval(r, env, n), n);
    }
  }

  lemma {:induction false} ApplyAssoc(op: Op, x: int, y: int, z: int, n: nat)
    requires n > 0 && Commutes(op) && 0 <= x < Pow2(n) && 0 <= y < Pow2(n) && 0 <= z < Pow2(n)
    ensures Apply(op, x, y, n) < Pow2(n) && Apply(op, y, z, n) < Pow2(n)
    ensures Apply(op, Apply(op, x, y, n), z, n) == Apply(op, x, Apply(op, y, z, n), n)
  {
    ApplyRange(op, x, y, n);
    ApplyRange(op, y, z, n);
    match op
    case Plus => PlusAssoc(x, y, z, n);
    case Mul => MulAssoc(x, y, z, n);
    case Bit(b) => BitsAssoc(b, x, y, z, n);
  }

  lemma {:induction false} PlusAssoc(x: int, y: int, z: int, n: nat)
    ensures Word(Word(x + y, n) + z, n) == Word(x + Word(y + z, n), n)
  {
    hide Word, Pow2;
    WordMinus(z, x + y, n);
    WordMinus(x, y + z, n);
    assert z + (x + y) == x + (y + z) && z + Word(x + y, n) == Word(x + y, n) + z;
  }

  lemma {:induction false} MulAssoc(x: int, y: int, z: int, n: nat)
    ensures Word(Word(x * y, n) * z, n) == Word(x * Word(y * z, n), n)
  {
    MulMod(x * y, z, Pow2(n));
    MulMod(y * z, x, Pow2(n));
    Reorder(x, y, z, Word(y * z, n));
  }

  lemma {:induction false} Reorder(x: int, y: int, z: int, w: int)
    ensures x * y * z == y * z * x && x * w == w * x
  {
  }

  lemma {:induction false} AssocSame(op: Op, a: Expr, b: Expr, c: Expr, n: nat)
    requires n > 0 && Commutes(op)
    ensures Same(Bin(op, a, Bin(op, b, c)), Bin(op, Bin(op, a, b), c), n)
  {
    forall env: Env ensures Eval(Bin(op, a, Bin(op, b, c)), env, n) == Eval(Bin(op, Bin(op, a, b), c), env, n) {
      ApplyAssoc(op, Eval(a, env, n), Eval(b, env, n), Eval(c, env, n), n);
    }
  }

  // ---------------------------------------------------------------------------------------
  // Constants

  /** `nncon` */
  predicate Nncon(p: Expr) {
    p.Icon? && p.name.None?
  }

  function LongBits(b: BitOp, x: int, y: int): long {
    Wrap(Bits(b, x, y, 32))
  }

  /** `conval`, for the operators `optim` hands to it: two constants made one, unless names forbid it. */
  function Conval(p: Expr, op: Op, q: Expr): (r: Option<Expr>)
    requires p.Icon? && q.Icon?
    ensures r.Some? ==> r.value.Icon? && (Nncon(r.value) <==> Nncon(p) && Nncon(q))
    ensures r.Some? && op == Minus ==> Nncon(q)
    ensures (Commutes(op) || op == Minus) && Nncon(p) && Nncon(q) ==> r.Some?
  {
    if p.name.Some? && q.name.Some? then None
    else if q.name.Some? && op != Plus then None
    else if p.name.Some? && op != Plus && op != Minus then None
    else
      match op
      case Plus => Some(Icon(Wrap(p.lval + q.lval), if p.name.None? then q.name else p.name))
      case Minus => Some(Icon(Wrap(p.lval - q.lval), p.name))
      case Mul => Some(Icon(Wrap(p.lval * q.lval), p.name))
      case Bit(b) => Some(Icon(LongBits(b, p.lval, q.lval), p.name))
      case _ => None
  }

  // ---------------------------------------------------------------------------------------
  // Shapes

  ghost predicate Power(c: long) {
    exists k: nat :: c == Pow2(k)
  }

  /** A plain constant at the right, and the operand at the left ends in another that it could be taken into. */
  predicate Mergeable(op: Op, l: Expr, r: Expr) {
    && Nncon(r) && l.Bin? && Nncon(l.right)
    && (l.op == op || (op == Plus && l.op == Minus) || (op == Minus && l.op == Plus))
  }

  /** Nothing is left to do at this operator: a plain constant is at the right, is not one a simpler operator takes,
      and has taken in the one before it; and a comparison has a constant at the left only against another one. */
  ghost predicate CleanNode(op: Op, l: Expr, r: Expr) {
    (Commutes(op) || op == Minus ==> !Mergeable(op, l, r)) &&
    match op
    case Plus => !Nncon(l) && !(Nncon(r) && r.lval < 0)
    case Minus => Nncon(r) ==> !Nncon(l) && (r.lval > 0 || r.lval == -0x8000_0000)
    case Mul => !Nncon(l) && !(Nncon(r) && Power(r.lval))
    case Div(_) => !(Nncon(r) && r.lval == 1)
    case Ls => true
    case Bit(_) => !Nncon(l)
    case Rel(_) => l.Icon? ==> r.Icon?
  }

  ghost predicate Clean(e: Expr) {
    e.Bin? ==> Clean(e.left) && Clean(e.right) && CleanNode(e.op, e.left, e.right)
  }

  /** No constant can be taken into the one at the right. */
  predicate Gathered(op: Op, l: Expr, r: Expr)
  {
    && (r.Icon? && l.Bin? && l.op == op && l.right.Icon? ==> Conval(r, op, l.right).None?)
    && (r.Icon? && l.Icon? ==> Conval(l, op, r).None?)
  }

  lemma {:induction false} ModPair(x: int, y: int, m: nat)
    requires m > 0
    ensures (x % m + y % m) % m == (x + y) % m && (x % m - y % m) % m == (x - y) % m
  {
    AddMod(x, y % m, m);
    AddMod(y, x, m);
    AddMod(x, -(y % m), m);
    AddMultiple(x - y % m, -(y / m), m);
    assert y == m * (y / m) + y % m;
    assert x - y % m + m * -(y / m) == x - y;
  }

  lemma {:induction false} WordPair(x: int, y: int, n: nat)
    ensures Word(Word(x, n) + Word(y, n), n) == Word(x + y, n) && Word(Word(x, n) - Word(y, n), n) == Word(x - y, n)
  {
    ModPair(x, y, Pow2(n));
  }

  lemma {:induction false} WordTimes(x: int, y: int, n: nat)
    ensures Word(Word(x, n) * Word(y, n), n) == Word(x * y, n)
  {
    MulPair(x, y, Pow2(n));
  }

  lemma {:induction false} MulPair(x: int, y: int, m: nat)
    requires m > 0
    ensures (x % m * (y % m)) % m == (x * y) % m
  {
    MulMod(x, y % m, m);
    MulMod(y, x, m);
    Reorder(x, y, 1, y % m);
  }

  lemma {:induction false} BitsPair(b: BitOp, x: int, y: int, n: nat, w: nat)
    requires Width(n) && w == 32
    ensures Bits(b, Word(x, n), Word(y, n), n) == Word(Wrap(Bits(b, x, y, w)), n)
  {
    WrapMod(Bits(b, x, y, w), n);
    BitsLow(b, x, y, w, n);
    BitsMod(b, x, y % Pow2(n), n);
    BitsSwap(b, x, y % Pow2(n), n);
    BitsMod(b, y, x, n);
    BitsSwap(b, x, y, n);
  }

  lemma {:induction false} WrapPlus(x: int, base: int, n: nat)
    requires Width(n)
    ensures Word(Wrap(x) + base, n) == Word(x + base, n)
  {
    WrapMod(x, n);
    AddMod(Wrap(x), base, Pow2(n));
    AddMod(x, base, Pow2(n));
  }

  lemma {:induction false} IconEval(p: Expr, env: Env, n: nat)
    requires p.Icon? && n > 0
    ensures Eval(p, env, n) == Word(p.lval + Base(p.name, env), n)
  {
  }

  lemma {:induction false} PlusIs(x: int, y: int, n: nat)
    requires 0 <= x < Pow2(n) && 0 <= y < Pow2(n)
    ensures Apply(Plus, x, y, n) == Word(x + y, n) && Apply(Minus, x, y, n) == Word(x - y, n)
  {
  }

  lemma {:induction false} SumWords(x: int, u: int, y: int, v: int, n: nat)
    requires Width(n)
    ensures Word(Wrap(x + y) + (u + v), n) == Word(Word(x + u, n) + Word(y + v, n), n)
    ensures Word(Wrap(x - y) + u, n) == Word(Word(x + u, n) - Word(y, n), n)
  {
    hide Wrap, Pow2, Word;
    WordPair(x + u, y + v, n);
    WrapPlus(x + y, u + v, n);
    assert x + u + (y + v) == x + y + (u + v);
    WordPair(x + u, y, n);
    WrapPlus(x - y, u, n);
    assert x + u - y == x - y + u;
  }

  lemma {:induction false} PlusApplies(p: Expr, q: Expr, r: Expr, env: Env, n: nat)
    requires Width(n) && p.Icon? && q.Icon? && r.Icon? && r.lval == Wrap(p.lval + q.lval)
    requires Base(r.name, env) == Base(p.name, env) + Base(q.name, env)
    ensures Eval(r, env, n) == Apply(Plus, Eval(p, env, n), Eval(q, env, n), n)
  {
    hide Eval, Wrap, Pow2, Apply, Word, Base;
    IconEval(p, env, n);
    IconEval(q, env, n);
    IconEval(r, env, n);
    PlusIs(Eval(p, env, n), Eval(q, env, n), n);
    SumWords(p.lval, Base(p.name, env), q.lval, Base(q.name, env), n);
  }

  lemma {:induction false} MinusApplies(p: Expr, q: Expr, r: Expr, env: Env, n: nat)
    requires Width(n) && p.Icon? && q.Icon? && r.Icon? && r.lval == Wrap(p.lval - q.lval)
    requires Base(r.name, env) == Base(p.name, env) && Base(q.name, env) == 0
    ensures Eval(r, env, n) == Apply(Minus, Eval(p, env, n), Eval(q, env, n), n)
  {
    hide Eval, Wrap, Pow2, Apply, Word, Base;
    IconEval(p, env, n);
    IconEval(q, env, n);
    IconEval(r, env, n);
    PlusIs(Eval(p, env, n), Eval(q, env, n), n);
    SumWords(p.lval, Base(p.name, env), q.lval, 0, n);
  }

  lemma {:induction false} MulApplies(x: int, y: int, n: nat)
    requires Width(n)
    ensures Word(Wrap(x * y), n) == Apply(Mul, Word(x, n), Word(y, n), n)
  {
    hide Wrap, Pow2, Word;
    WordTimes(x, y, n);
    WrapPlus(x * y, 0, n);
  }

  lemma {:induction false} ConvalApplies(p: Expr, op: Op, q: Expr, r: Expr, env: Env, n: nat)
    requires Width(n) && p.Icon? && q.Icon? && Conval(p, op, q) == Some(r)
    ensures Eval(r, env, n) == Apply(op, Eval(p, env, n), Eval(q, env, n), n)
  {
    hide Eval, Wrap, Pow2, Apply, Word, LongBits, Value;
    match op
    case Plus => PlusApplies(p, q, r, env, n);
    case Minus => MinusApplies(p, q, r, env, n);
    case Mul =>
      IconEval(p, env, n);
      IconEval(q, env, n);
      IconEval(r, env, n);
      MulApplies(p.lval, q.lval, n);
    case Bit(b) =>
      IconEval(p, env, n);
      IconEval(q, env, n);
      IconEval(r, env, n);
      BitsApply(b, p.lval, q.lval, n);
  }

  lemma {:induction false} BitsApply(b: BitOp, x: int, y: int, n: nat)
    requires Width(n)
    ensures Word(LongBits(b, x, y), n) == Apply(Bit(b), Word(x, n), Word(y, n), n)
  {
    hide Bits, Wrap, Pow2, Word;
    BitsPair(b, x, y, n, 32);
  }

  lemma {:induction false} ConvalSame(p: Expr, op: Op, q: Expr, n: nat)
    requires Width(n) && p.Icon? && q.Icon? && Conval(p, op, q).Some?
    ensures Same(Bin(op, p, q), Conval(p, op, q).value, n)
  {
    forall env: Env ensures Eval(Bin(op, p, q), env, n) == Eval(Conval(p, op, q).value, env, n) {
      ConvalApplies(p, op, q, Conval(p, op, q).value, env, n);
    }
  }

  // ---------------------------------------------------------------------------------------
  // The rewritings

  lemma {:induction false} NegWords(x: int, c: int, n: nat)
    requires Width(n)
    ensures Word(x - Word(c, n), n) == Word(x + Word(Wrap(0 - c), n), n)
    ensures Word(x + Word(c, n), n) == Word(x - Word(Wrap(0 - c), n), n)
  {
    hide Word, Wrap, Pow2;
    WordMinus(x, c, n);
    WordMinus(x, 0 - c, n);
    WrapWord(0 - c, n);
  }

  lemma {:induction false} WrapWord(x: int, n: nat)
    requires Width(n)
    ensures Word(Wrap(x), n) == Word(x, n)
  {
    WrapMod(x, n);
  }

  lemma {:induction false} WordMinus(x: int, c: int, n: nat)
    ensures Word(x - Word(c, n), n) == Word(x - c, n) && Word(x + Word(c, n), n) == Word(x + c, n)
  {
    var m := Pow2(n);
    AddMultiple(x - c % m, -(c / m), m);
    AddMultiple(x + c % m, c / m, m);
    assert c == m * (c / m) + c % m;
    assert x - c % m + m * -(c / m) == x - c;
  }

  lemma {:induction false} NegSame(l: Expr, c: long, n: nat)
    requires Width(n)
    ensures Same(Bin(Minus, l, Icon(c, None)), Bin(Plus, l, Icon(Wrap(0 - c), None)), n)
    ensures Same(Bin(Plus, l, Icon(c, None)), Bin(Minus, l, Icon(Wrap(0 - c), None)), n)
  {
    hide Word, Wrap, Pow2;
    forall env: Env
      ensures Eval(Bin(Minus, l, Icon(c, None)), env, n) == Eval(Bin(Plus, l, Icon(Wrap(0 - c), None)), env, n)
      ensures Eval(Bin(Plus, l, Icon(c, None)), env, n) == Eval(Bin(Minus, l, Icon(Wrap(0 - c), None)), env, n)
    {
      NegWords(Eval(l, env, n), c, n);
      IconEval(Icon(c, None), env, n);
      IconEval(Icon(Wrap(0 - c), None), env, n);
      PlusIs(Eval(l, env, n), Word(c, n), n);
      PlusIs(Eval(l, env, n), Word(Wrap(0 - c), n), n);
    }
  }

  lemma {:induction false} MinusWords(x: int, a: int, b: int, n: nat)
    ensures Word(Word(x - a, n) + b, n) == Word(x + Word(b - a, n), n)
  {
    hide Word, Pow2;
    WordMinus(b, x - a, n);
    WordMinus(x, b - a, n);
    assert b + (x - a) == x + (b - a) && Word(x - a, n) + b == b + Word(x - a, n);
  }

  /** x - a + b is x + (b - a). */
  lemma {:induction false} MinusPlusSame(l: Expr, a: Expr, b: Expr, n: nat)
    requires n > 0
    ensures Same(Bin(Plus, Bin(Minus, l, a), b), Bin(Plus, l, Bin(Minus, b, a)), n)
  {
    hide Word, Pow2;
    forall env: Env ensures Eval(Bin(Plus, Bin(Minus, l, a), b), env, n) ==
      Eval(Bin(Plus, l, Bin(Minus, b, a)), env, n) {
      var x, u, v := Eval(l, env, n), Eval(a, env, n), Eval(b, env, n);
      MinusWords(x, u, v, n);
      PlusIs(x, u, n);
      PlusIs(v, u, n);
      PlusIs(Word(x - u, n), v, n);
      PlusIs(x, Word(v - u, n), n);
    }
  }

  lemma {:induction false} OneValue(n: nat)
    requires Width(n)
    ensures Word(1, n) == 1 && Pow2(n) >= 65536
  {
    WidthPow(n);
  }

  lemma {:induction false} TimesOne(l: Expr, n: nat)
    requires Width(n)
    ensures Same(Bin(Mul, l, Icon(1, None)), l, n)
  {
    hide Apply, Word;
    forall env: Env ensures Eval(Bin(Mul, l, Icon(1, None)), env, n) == Eval(l, env, n) {
      OneValue(n);
      Once(Eval(l, env, n), n);
      IconEval(Icon(1, None), env, n);
    }
  }

  lemma {:induction false} Once(x: int, n: nat)
    requires Width(n) && 0 <= x < Pow2(n)
    ensures 1 < Pow2(n) && Apply(Mul, x, 1, n) == x
  {
    hide Pow2;
    OneValue(n);
    ModUnique(x, 0, x, Pow2(n));
  }

  lemma {:induction false} SignedBack(x: int, m: nat)
    requires 0 <= x < m
    ensures Signed(x, m) % m == x
  {
    ModUnique(Signed(x, m), if x < m / 2 then 0 else -1, x, m);
  }

  lemma {:induction false} OverOne(unsigned: bool, x: int, n: nat)
    requires Width(n) && 0 <= x < Pow2(n)
    ensures 1 < Pow2(n) && Apply(Div(unsigned), x, 1, n) == x
  {
    hide Pow2;
    OneValue(n);
    var m := Pow2(n);
    assert Signed(1, m) == 1;
    if unsigned {
      ModUnique(x, 0, x, m);
    } else {
      SignedBack(x, m);
    }
  }

  lemma {:induction false} DivOne(unsigned: bool, l: Expr, n: nat)
    requires Width(n)
    ensures Same(Bin(Div(unsigned), l, Icon(1, None)), l, n)
  {
    hide Apply, Word;
    forall env: Env ensures Eval(Bin(Div(unsigned), l, Icon(1, None)), env, n) == Eval(l, env, n) {
      OneValue(n);
      OverOne(unsigned, Eval(l, env, n), n);
      IconEval(Icon(1, None), env, n);
    }
  }

  lemma {:induction false} SmallValue(i: nat, n: nat)
    requires Width(n) && i < 32
    ensures Word(i, n) == i
  {
    WidthPow(n);
  }

  lemma {:induction false} TimesPower(x: int, i: nat, n: nat)
    requires Width(n) && 0 <= x < Pow2(n) && i < 32
    ensures Word(x * Word(Pow2(i), n), n) == Word(x * Pow2(Word(i, n)), n)
  {
    SmallValue(i, n);
    var p, m := Pow2(i), Pow2(n);
    MulMod(p, x, m);
    Reorder(x, p, 1, p % m);
    Reorder(x, p, 1, p);
    assert p % m * x == x * (p % m);
  }

  /** A multiplication by a power of two is a shift. */
  lemma {:induction false} ShiftSame(l: Expr, i: nat, n: nat)
    requires Width(n) && i < 31 && Pow2(i) < 0x8000_0000
    ensures Same(Bin(Mul, l, Icon(Pow2(i), None)), Bin(Ls, l, Icon(i, None)), n)
  {
    hide Pow2, Word;
    forall env: Env ensures Eval(Bin(Mul, l, Icon(Pow2(i), None)), env, n) == Eval(Bin(Ls, l, Icon(i, None)), env, n) {
      IconEval(Icon(Pow2(i), None), env, n);
      IconEval(Icon(i, None), env, n);
      TimesPower(Eval(l, env, n), i, n);
    }
  }

  /** revrel */
  function Reversed(r: RelOp): RelOp {
    match r
    case EQ => EQ case NE => NE case LE => GE case LT => GT case GE => LE case GT => LT
    case ULE => UGE case ULT => UGT case UGE => ULE case UGT => ULT
  }

  lemma {:induction false} RelSame(r: RelOp, a: Expr, b: Expr, n: nat)
    requires n > 0
    ensures Same(Bin(Rel(r), a, b), Bin(Rel(Reversed(r)), b, a), n)
  {
    forall env: Env ensures Eval(Bin(Rel(r), a, b), env, n) == Eval(Bin(Rel(Reversed(r)), b, a), env, n) {
    }
  }

  /** (x op a) op b is x op (b op a). */
  lemma {:induction false} MergeSame(op: Op, l: Expr, a: Expr, b: Expr, n: nat)
    requires n > 0 && Commutes(op)
    ensures Same(Bin(op, Bin(op, l, a), b), Bin(op, l, Bin(op, b, a)), n)
  {
    AssocSame(op, l, a, b, n);
    SwapSame(op, a, b, n);
    SameParts(op, l, l, Bin(op, a, b), Bin(op, b, a), n);
    SameTrans(Bin(op, Bin(op, l, a), b), Bin(op, l, Bin(op, a, b)), Bin(op, l, Bin(op, b, a)), n);
  }

  // ---------------------------------------------------------------------------------------
  // The program

  /** `ispow2`: the exponent, or -1 for anything but a power of two. */
  method Ispow2(c: long) returns (i: int)
    ensures i >= 0 <==> Power(c)
    ensures i >= 0 ==> i < 31 && c == Pow2(i)
  {
    if c <= 0 || LongBits(And, c, c - 1) != 0 {
      NoPower(c, 32);
      return -1;
    }
    var k := PowerIs(c, 32);
    i := 0;
    var d := c;
    while d > 1
      invariant 0 <= i <= k && d == Pow2(k - i)
    {
      d := d / 2;
      i := i + 1;
    }
  }

  lemma {:induction false} SmallPower(c: int, k: nat, w: nat)
    requires w == 32 && c == Pow2(k) && c < 0x8000_0000
    ensures k < 31
  {
    Pow31();
    if k >= 31 {
      Pow2Mono(31, k);
    }
  }

  lemma {:induction false} Pow31()
    ensures Pow2(31) == 0x8000_0000
  {
    var w := 32;
    WidthPow(w);
    assert Pow2(w) == 2 * Pow2(w - 1);
  }

  lemma {:induction false} LongBitsZero(c: int, w: nat)
    requires w == 32 && 0 < c < 0x8000_0000
    ensures LongBits(And, c, c - 1) == 0 <==> PowerOfTwo(c, w)
  {
    hide Bits, PowerOfTwo;
    WidthPow(w);
    BitsRange(And, c, c - 1, w);
    PowerBits(c, w);
  }

  lemma {:induction false} NoPower(c: int, w: nat)
    requires w == 32 && c < 0x8000_0000 && (c <= 0 || LongBits(And, c, c - 1) != 0)
    ensures !exists k: nat :: c == Pow2(k)
  {
    if c > 0 {
      LongBitsZero(c, w);
      forall k: nat | c == Pow2(k) ensures false {
        SmallPower(c, k, w);
      }
    }
  }

  lemma {:induction false} PowerIs(c: int, w: nat) returns (k: nat)
    requires w == 32 && 0 < c < 0x8000_0000 && LongBits(And, c, c - 1) == 0
    ensures c == Pow2(k) && k < 31
  {
    LongBitsZero(c, w);
    k :| k < w && c == Pow2(k);
    SmallPower(c, k, w);
  }

  /** The commutative cases of `optim`, with the operands optimized. */
  method Collect(op: Op, l: Expr, r: Expr, n: nat) returns (p: Expr)
    requires Width(n) && Commutes(op) && Clean(l) && Clean(r)
    ensures Same(p, Bin(op, l, r), n) && Clean(p)
    ensures op != Mul && p.Bin? && p.op == op ==> Gathered(op, p.left, p.right)
    ensures op != Mul && p.Bin? && p.op != op ==>
              && op == Plus && p.op == Minus && Nncon(p.right)
              && Gathered(Plus, p.left, Icon(Wrap(0 - p.right.lval), None))
  {
    hide Same, Eval, Conval;
    ghost var p0 := Bin(op, l, r);
    var left, right := l, r;
    SameRefl(p0, n);
    if Nncon(left) || (left.Icon? && !right.Icon?) {
      SwapSame(op, left, right, n);
      left, right := right, left;
      SameSym(p0, Bin(op, left, right), n);
    }
    if right.Bin? && right.op == op {
      ghost var before := Bin(op, left, right);
      AssocSame(op, left, right.left, right.right, n);
      left, right := Bin(op, left, right.left), right.right;
      SameSym(before, Bin(op, left, right), n);
      SameTrans(Bin(op, left, right), before, p0, n);
    }
    left, right := Constants(op, left, right, n, p0);
    if left.Icon? && right.Icon? {
      var c := Conval(left, op, right);
      if c.Some? {
        ConvalSame(left, op, right, n);
        SameSym(Bin(op, left, right), c.value, n);
        SameTrans(c.value, Bin(op, left, right), p0, n);
        return c.value;
      }
    }
    p := Finish(op, left, right, n);
    SameTrans(p, Bin(op, left, right), p0, n);
  }

  /** Constants at the right of the left operand are taken up into the right one. */
  method Constants(op: Op, l: Expr, r: Expr, n: nat, ghost p0: Expr) returns (left: Expr, right: Expr)
    requires Width(n) && Commutes(op) && Same(Bin(op, l, r), p0, n) && Clean(l) && Clean(r) && (Nncon(l) ==> Nncon(r))
    ensures Same(Bin(op, left, right), p0, n) && Clean(left) && Clean(right) && (Nncon(left) ==> Nncon(right))
    ensures right.Icon? && left.Bin? && left.op == op && left.right.Icon? ==> Conval(right, op, left.right).None?
    ensures !Mergeable(op, left, right)
  {
    hide Same, Eval, Conval;
    left, right := l, r;
    if op == Plus && left.Bin? && left.op == Minus && right.Icon? && left.right.Icon? {
      var c := Conval(right, Minus, left.right);
      if c.Some? {
        MergeMinus(left.left, left.right, right, c.value, n, p0);
        left, right := left.left, c.value;
      }
    }
    while right.Icon? && left.Bin? && left.op == op && left.right.Icon?
      invariant Same(Bin(op, left, right), p0, n) && Clean(left) && Clean(right) && (Nncon(left) ==> Nncon(right))
      invariant Mergeable(op, left, right) ==> left.op == op
      decreases left
    {
      var c := Conval(right, op, left.right);
      if c.None? {
        break;
      }
      Merge(op, left.left, left.right, right, c.value, n, p0);
      left, right := left.left, c.value;
    }
  }

  /** Multiplications by powers of two become shifts, additions of negative constants subtractions. */
  method Finish(op: Op, left: Expr, right: Expr, n: nat) returns (p: Expr)
    requires Width(n) && Commutes(op) && Clean(left) && Clean(right) && !Nncon(left)
    requires !Mergeable(op, left, right)
    ensures Same(p, Bin(op, left, right), n) && Clean(p)
    ensures || p == Bin(op, left, right) || op == Mul
            || (op == Plus && Nncon(right) && p == Bin(Minus, left, Icon(Wrap(0 - right.lval), None)) && right.lval < 0)
  {
    hide Same, Eval;
    p := Bin(op, left, right);
    SameRefl(p, n);
    if op == Mul && Nncon(right) {
      var i := Ispow2(right.lval);
      if i == 0 {
        TimesOne(left, n);
        SameSym(p, left, n);
        return left;
      }
      if i >= 0 {
        ShiftSame(left, i, n);
        SameSym(p, Bin(Ls, left, Icon(i, None)), n);
        return Bin(Ls, left, Icon(i, None));
      }
      assert !Power(right.lval);
    }
    if op == Plus && Nncon(right) && right.lval < 0 {
      NegSame(left, right.lval, n);
      SameSym(p, Bin(Minus, left, Icon(Wrap(0 - right.lval), None)), n);
      assert CleanNode(Minus, left, Icon(Wrap(0 - right.lval), None));
      return Bin(Minus, left, Icon(Wrap(0 - right.lval), None));
    }
    assert CleanNode(op, left, right);
  }

  /** `optim`: the expression rewritten has the same value, whatever its leaves and addresses are, and nothing is
      left to do anywhere in it. */
  method Optim(p: Expr, n: nat) returns (r: Expr)
    requires Width(n)
    ensures Same(r, p, n) && Clean(r)
    decreases p
  {
    hide Same, Eval;
    SameRefl(p, n);
    match p
    case Leaf(_) => return p;
    case Icon(_, _) => return p;
    case Bin(op, l, r0) =>
      var right := Optim(r0, n);
      var left := Optim(l, n);
      SameParts(op, left, l, right, r0, n);
      r := Rewrite(op, left, right, n);
      SameTrans(r, Bin(op, left, right), p, n);
  }

  /** The cases of `optim`, once the operands have been done. */
  method Rewrite(op: Op, left: Expr, right: Expr, n: nat) returns (r: Expr)
    requires Width(n) && Clean(left) && Clean(right)
    ensures Same(r, Bin(op, left, right), n) && Clean(r)
  {
    hide Same, Eval;
    r := Bin(op, left, right);
    SameRefl(r, n);
    match op
    case Minus =>
      if Nncon(right) {
        var c := Icon(Wrap(0 - right.lval), None);
        NegSame(left, right.lval, n);
        r := Collect(Plus, left, c, n);
        SameSym(Bin(Minus, left, right), Bin(Plus, left, c), n);
        SameTrans(r, Bin(Plus, left, c), Bin(Minus, left, right), n);
      }
    case Div(unsigned) =>
      if Nncon(right) && right.lval == 1 {
        DivOne(unsigned, left, n);
        SameSym(r, left, n);
        return left;
      }
    case Rel(x) =>
      if left.Icon? {
        RelSame(x, left, right, n);
        SameSym(r, Bin(Rel(Reversed(x)), right, left), n);
        return Bin(Rel(Reversed(x)), right, left);
      }
    case Ls =>
    case _ =>
      r := Collect(op, left, right, n);
  }

  lemma {:induction false} SameRefl(p: Expr, n: nat)
    requires n > 0
    ensures Same(p, p, n)
  {
  }

  lemma {:induction false} SameSym(p: Expr, q: Expr, n: nat)
    requires n > 0 && Same(p, q, n)
    ensures Same(q, p, n)
  {
    forall env: Env ensures Eval(q, env, n) == Eval(p, env, n) {
      assert Eval(p, env, n) == Eval(q, env, n);
    }
  }

  lemma {:induction false} Merge(op: Op, l: Expr, a: Expr, b: Expr, c: Expr, n: nat, p0: Expr)
    requires Width(n) && Commutes(op) && a.Icon? && b.Icon? && Conval(b, op, a) == Some(c) &&
             Same(Bin(op, Bin(op, l, a), b), p0, n)
    ensures Same(Bin(op, l, c), p0, n)
  {
    hide Same, Eval, Conval;
    MergeSame(op, l, a, b, n);
    MergeEnd(op, op, l, Bin(op, Bin(op, l, a), b), b, a, c, n, p0);
  }

  lemma {:induction false} MergeMinus(l: Expr, a: Expr, b: Expr, c: Expr, n: nat, p0: Expr)
    requires Width(n) && a.Icon? && b.Icon? && Conval(b, Minus, a) == Some(c) &&
             Same(Bin(Plus, Bin(Minus, l, a), b), p0, n)
    ensures Same(Bin(Plus, l, c), p0, n)
  {
    hide Same, Eval, Conval;
    MinusPlusSame(l, a, b, n);
    MergeEnd(Plus, Minus, l, Bin(Plus, Bin(Minus, l, a), b), b, a, c, n, p0);
  }

  lemma {:induction false} MergeEnd(op: Op, inner: Op, l: Expr, q: Expr, b: Expr, a: Expr, c: Expr, n: nat, p0: Expr)
    requires Width(n) && a.Icon? && b.Icon? && Conval(b, inner, a) == Some(c)
    requires Same(q, Bin(op, l, Bin(inner, b, a)), n) && Same(q, p0, n)
    ensures Same(Bin(op, l, c), p0, n)
  {
    hide Same, Eval, Conval;
    ConvalSame(b, inner, a, n);
    SameRefl(l, n);
    SameParts(op, l, l, Bin(inner, b, a), c, n);
    SameTrans(q, Bin(op, l, Bin(inner, b, a)), Bin(op, l, c), n);
    SameSym(q, Bin(op, l, c), n);
    SameTrans(Bin(op, l, c), q, p0, n);
  }
}
