/** The code a86 emits for its branch pseudo-operations, and what an 8086 does with it
    (`branch` and its opcode table in ins.c). */
module Branches {

  import opened Basics

  /** br, and the ten conditional branches. */
  datatype Op = Br | Beq | Bne | Ble | Bgt | Blt | Bge | Blos | Bhi | Blo | Bhis

  function Direct(op: Op): byte {
    match op
    case Br => 0xEB case Beq => 0x74 case Bne => 0x75 case Ble => 0x7E case Bgt => 0x7F case Blt => 0x7C
    case Bge => 0x7D case Blos => 0x76 case Bhi => 0x77 case Blo => 0x72 case Bhis => 0x73
  }

  /** The branch around a jump; 0 where a plain jump will do. */
  function Opposite(op: Op): byte {
    match op
    case Br => 0 case Beq => 0x75 case Bne => 0x74 case Ble => 0x7F case Bgt => 0x7E case Blt => 0x7D
    case Bge => 0x7C case Blos => 0x77 case Bhi => 0x76 case Blo => 0x73 case Bhis => 0x72
  }

  /** Length of the long form. */
  function LongForm(op: Op): nat {
    if Opposite(op) == 0 then 3 else 5
  }

  // ---------------------------------------------------------------------------------------
  // The processor

  const JMP: byte := 0xE9
  const JMPS: byte := 0xEB

  /** Zero, sign, carry, overflow, parity. */
  datatype Flags = Flags(zf: bool, sf: bool, cf: bool, of: bool, pf: bool)

  /** The eight conditions of conditional jumps. */
  predicate Condition(n: nat, f: Flags) {
    match n
    case 0 => f.of
    case 1 => f.cf
    case 2 => f.zf
    case 3 => f.cf || f.zf
    case 4 => f.sf
    case 5 => f.pf
    case 6 => f.sf != f.of
    case _ => f.zf || f.sf != f.of
  }

  /** Opcodes from 70 to 7F hex are conditional jumps: even ones test a condition, odd ones for its absence. */
  predicate Taken(opcode: byte, f: Flags) {
    opcode == JMPS ||
    (0x70 <= opcode < 0x80 && Condition((opcode - 0x70) / 2, f) == (opcode % 2 == 0))
  }

  /** A word, taken with sign. */
  function Signed(x: nat): int {
    if x < 0x8000 then x else x - 0x1_0000
  }

  function Ones(b: nat): nat {
    if b == 0 then 0 else b % 2 + Ones(b / 2)
  }

  /** The flags after x and y have been compared, by the subtraction x - y of words. */
  function Compared(x: nat, y: nat): Flags {
    var d := (x - y) % 0x1_0000;
    Flags(d == 0, d >= 0x8000, x < y, Signed(x) - Signed(y) != Signed(d), Ones(d % 256) % 2 == 0)
  }

  function Signed8(b: byte): int {
    if b < 128 then b else b - 256
  }

  function Signed16(lo: byte, hi: byte): int {
    if hi < 128 then lo + 256 * hi else lo + 256 * hi - 65536
  }

  /** The address reached from `at` over a piece of branch code. */
  function Exec(code: seq<byte>, at: int, f: Flags): int
    decreases |code|
  {
    if |code| < 2 then at
    else if code[0] == JMP && |code| >= 3 then at + 3 + Signed16(code[1], code[2])
    else if Taken(code[0], f) && Signed8(code[1]) != 0 then at + 2 + Signed8(code[1])
    else Exec(code[2..], at + 2, f)
  }

  /** What the operations say of two words that have been compared: equal, not equal; less or equal, greater, less,
      greater or equal; lower or same, higher, lower, higher or same. */
  predicate Relation(op: Op, x: nat, y: nat) {
    match op
    case Br => true
    case Beq => x == y
    case Bne => x != y
    case Ble => Signed(x) <= Signed(y)
    case Bgt => Signed(x) > Signed(y)
    case Blt => Signed(x) < Signed(y)
    case Bge => Signed(x) >= Signed(y)
    case Blos => x <= y
    case Bhi => x > y
    case Blo => x < y
    case Bhis => x >= y
  }

  /** The same by the flags, however they have come about. */
  predicate Holds(op: Op, f: Flags) {
    match op
    case Br => true
    case Beq => f.zf
    case Bne => !f.zf
    case Ble => f.zf || f.sf != f.of
    case Bgt => !f.zf && f.sf == f.of
    case Blt => f.sf != f.of
    case Bge => f.sf == f.of
    case Blos => f.cf || f.zf
    case Bhi => !f.cf && !f.zf
    case Blo => f.cf
    case Bhis => !f.cf
  }

  lemma {:induction false} RelationHolds(op: Op, x: nat, y: nat)
    requires x < 0x1_0000 && y < 0x1_0000
    ensures Holds(op, Compared(x, y)) <==> Relation(op, x, y)
  {
    hide Ones;
  }

  lemma {:induction false} DirectTaken(op: Op, f: Flags)
    ensures Taken(Direct(op), f) <==> Holds(op, f)
  {
  }

  predicate Arrives(code: seq<byte>, f: Flags, at: int, target: int, taken: bool) {
    var next := Exec(code, at, f);
    if taken then (next - target) % 65536 == 0 else next == at + |code|
  }

  /** When words have been compared, the code goes to the target if they stand in the relation of the operation, and
      on to the next instruction if not; after anything else the flags decide. Addresses wrap around at 64K. */
  ghost predicate Goes(code: seq<byte>, op: Op, at: int, target: int) {
    && (forall x: nat, y: nat :: x < 0x1_0000 && y < 0x1_0000 ==>
          Arrives(code, Compared(x, y), at, target, Relation(op, x, y)))
    && forall f: Flags :: Arrives(code, f, at, target, Holds(op, f))
  }

  /** By the flags it goes where the relation says. */
  lemma {:induction false} GoesByFlags(code: seq<byte>, op: Op, at: int, target: int)
    requires forall f: Flags :: Arrives(code, f, at, target, Holds(op, f))
    ensures Goes(code, op, at, target)
  {
    hide Arrives, Holds, Relation, Compared;
    forall x: nat, y: nat | x < 0x1_0000 && y < 0x1_0000
      ensures Arrives(code, Compared(x, y), at, target, Relation(op, x, y))
    {
      RelationHolds(op, x, y);
    }
  }

  lemma {:induction false} OppositeNegates(op: Op, f: Flags)
    requires op != Br
    ensures Taken(Opposite(op), f) == !Holds(op, f)
  {
  }

  lemma {:induction false} Displacement(o: int)
    ensures (Signed16(o % 256, o / 256 % 256) - o) % 65536 == 0
    ensures -128 <= o <= 127 ==> Signed8(o % 256) == o
  {
  }

  lemma {:induction false} ShortWorks(op: Op, at: int, offs: int)
    requires -128 <= offs <= 127
    ensures Goes([Direct(op), offs % 256], op, at, at + 2 + offs)
  {
    hide Holds, Compared, Relation, Taken;
    var code := [Direct(op), offs % 256];
    Displacement(offs);
    forall f: Flags ensures Arrives(code, f, at, at + 2 + offs, Holds(op, f)) {
      DirectTaken(op, f);
      assert code[2..] == [] && Direct(op) != JMP;
      assert Exec(code[2..], at + 2, f) == at + 2;
      assert Exec(code, at, f) == if Holds(op, f) && offs != 0 then at + 2 + offs else at + 2;
    }
    GoesByFlags(code, op, at, at + 2 + offs);
  }

  lemma {:induction false} JumpWorks(at: int, offs: int, f: Flags)
    ensures var o := offs - 1;
      (Exec([JMP, o % 256, o / 256 % 256], at, f) - (at + 2 + offs)) % 65536 == 0
  {
    Displacement(offs - 1);
  }

  lemma {:induction false} AroundWorks(op: Op, at: int, offs: int)
    requires op != Br
    ensures var o := offs - 3;
      Goes([Opposite(op), 3, JMP, o % 256, o / 256 % 256], op, at, at + 2 + offs)
  {
    var o := offs - 3;
    var code := [Opposite(op), 3, JMP, o % 256, o / 256 % 256];
    hide Holds, Compared, Relation, Taken;
    assert code[2..] == [JMP, o % 256, o / 256 % 256];
    assert Opposite(op) != JMP;
    forall f: Flags ensures Arrives(code, f, at, at + 2 + offs, Holds(op, f)) {
      OppositeNegates(op, f);
      JumpWorks(at + 2, offs - 2, f);
    }
    GoesByFlags(code, op, at, at + 2 + offs);
  }

  /** `branch` in pass 2: the direct form if it may, else a jump with, for a conditional operation,
      the opposite branch around it. */
  method Encode(op: Op, short: bool, offs: int, ghost at: int) returns (code: seq<byte>)
    requires short ==> -128 <= offs <= 127
    ensures |code| == if short then 2 else LongForm(op)
    ensures Goes(code, op, at, at + 2 + offs)
  {
    if short {
      code := [Direct(op), offs % 256];
      ShortWorks(op, at, offs);
    } else if Opposite(op) == 0 {
      var o := offs - 1;
      code := [JMP, o % 256, o / 256 % 256];
      forall f: Flags ensures Arrives(code, f, at, at + 2 + offs, Holds(op, f)) {
        JumpWorks(at, offs, f);
      }
      GoesByFlags(code, op, at, at + 2 + offs);
    } else {
      var o := offs - 3;
      code := [Opposite(op), 3, JMP, o % 256, o / 256 % 256];
      AroundWorks(op, at, offs);
    }
  }
}
