/** Types to be initialized, and the order of their scalars (`instk` and `gotscal` of pftn.c, as values). */
module Aggregates {

  /** A struct member and its offset. */
  datatype Member = Member(off: int, ty: Ty)

  /** Types as an initializer sees them. Sizes and offsets are in bits. */
  datatype Ty =
    | Scalar(size: int)
    | Array(n: nat, elem: Ty)
    | Struct(size: int, members: seq<Member>)

  /** tsize */
  function Size(ty: Ty): int {
    match ty
    case Scalar(size) => size
    case Array(n, elem) => n * Size(elem)
    case Struct(size, _) => size
  }

  /** Inner arrays have elements and structs have members. */
  predicate Proper(ty: Ty)
    decreases ty
  {
    match ty
    case Scalar(_) => true
    case Array(n, elem) => n > 0 && Proper(elem)
    case Struct(_, members) => |members| > 0 && forall i :: 0 <= i < |members| ==> Proper(members[i].ty)
  }

  /** A scalar to be filled: where, and of what type. */
  datatype Slot = Slot(off: int, ty: Ty)

  /** The scalars of a type, in order. */
  function Slots(ty: Ty, off: int): seq<Slot>
    decreases ty, 0
  {
    match ty
    case Scalar(_) => [Slot(off, ty)]
    case Array(n, elem) => ElemSlots(elem, off, 0, n)
    case Struct(_, members) => MemberSlots(ty, off, 0)
  }

  /** The scalars of elements k to n - 1. */
  function ElemSlots(elem: Ty, off: int, k: nat, n: nat): seq<Slot>
    decreases elem, 1, n - k
  {
    if k >= n then [] else Slots(elem, off + k * Size(elem)) + ElemSlots(elem, off, k + 1, n)
  }

  /** The scalars of members from x on. */
  function MemberSlots(ty: Ty, off: int, x: nat): seq<Slot>
    requires ty.Struct?
    decreases ty, 0, |ty.members| - x
  {
    if x >= |ty.members| then []
    else
      var m := ty.members[x];
      Slots(m.ty, off + m.off) + MemberSlots(ty, off, x + 1)
  }

  /** The number of stack entries a type takes. */
  function Depth(ty: Ty): (d: nat)
    ensures d >= 1
    decreases ty, 0
  {
    match ty
    case Scalar(_) => 1
    case Array(_, elem) => 1 + Depth(elem)
    case Struct(_, members) => 1 + MaxDepth(ty, |members|)
  }

  function MaxDepth(ty: Ty, x: nat): (d: nat)
    requires ty.Struct? && x <= |ty.members|
    ensures forall i :: 0 <= i < x ==> Depth(ty.members[i].ty) <= d
    decreases ty, 0, x
  {
    if x == 0 then 0
    else
      var d, e := MaxDepth(ty, x - 1), Depth(ty.members[x - 1].ty);
      if d > e then d else e
  }

  // ---------------------------------------------------------------------------------------
  // The stack

  /** An entry: a type, its offset, and which element or member of it is being filled. */
  datatype Frame = Frame(ty: Ty, off: int, n: nat)

  /** What is still to come of the entry's type, after the part being filled; an array at the bottom of the
      stack is taken to have as many elements as needed. */
  function Siblings(f: Frame, bottom: bool, many: nat): seq<Slot> {
    match f.ty
    case Scalar(_) => []
    case Array(n, elem) => ElemSlots(elem, f.off, f.n + 1, if bottom then many else n)
    case Struct(_, _) => MemberSlots(f.ty, f.off, f.n + 1)
  }

  /** What is still to come after the scalar on top. */
  function Rest(s: seq<Frame>, many: nat): seq<Slot> {
    if s == [] then []
    else Siblings(s[|s| - 1], |s| == 1, many) + Rest(s[..|s| - 1], many)
  }

  /** The part of an entry that is being filled: what the next entry is for. */
  predicate Part(f: Frame, g: Frame) {
    match f.ty
    case Scalar(_) => false
    case Array(_, elem) => g.ty == elem && g.off == f.off + f.n * Size(elem)
    case Struct(_, members) => f.n < |members| && g.ty == members[f.n].ty && g.off == f.off + members[f.n].off
  }

  /** Entries are parts of the ones below. */
  predicate Nested(s: seq<Frame>) {
    forall i :: 0 < i < |s| ==> Part(s[i - 1], s[i]) && Proper(s[i].ty)
  }

  /** `instk`: entries for the type, its first part, the first part of that, down to a scalar. */
  function Push(s: seq<Frame>, ty: Ty, off: int): seq<Frame>
    requires Proper(ty) || (s == [] && ty.Array? && Proper(ty.elem))
    decreases ty
  {
    var t := s + [Frame(ty, off, 0)];
    match ty
    case Scalar(_) => t
    case Array(_, elem) => Push(t, elem, off)
    case Struct(_, members) => Push(t, members[0].ty, off + members[0].off)
  }

  function Top(s: seq<Frame>): Frame
    requires |s| > 0
  {
    s[|s| - 1]
  }

  function Current(s: seq<Frame>): Slot
    requires |s| > 0
  {
    Slot(Top(s).off, Top(s).ty)
  }

  /** All scalars of the variable, an array taken to have as many elements as needed. */
  function Flattened(ty: Ty, off: int, many: nat): seq<Slot> {
    if ty.Array? then ElemSlots(ty.elem, off, 0, many) else Slots(ty, off)
  }

  lemma {:induction false} PushTop(s: seq<Frame>, ty: Ty, off: int)
    requires Proper(ty) || (s == [] && ty.Array? && Proper(ty.elem))
    ensures var u := Push(s, ty, off); |u| > |s| && u[..|s|] == s && u[|s|] == Frame(ty, off, 0) && Top(u).ty.Scalar?
    decreases ty
  {
    var t := s + [Frame(ty, off, 0)];
    if !ty.Scalar? {
      var first, at := First(ty), off + FirstOff(ty);
      PushTop(t, first, at);
      var u := Push(t, first, at);
      assert u[..|s|] == u[..|t|][..|s|] && u[|s|] == u[..|t|][|s|];
    }
  }

  /** The first part of an aggregate. */
  function First(ty: Ty): Ty
    requires !ty.Scalar? && (Proper(ty) || ty.Array?)
  {
    if ty.Array? then ty.elem else ty.members[0].ty
  }

  function FirstOff(ty: Ty): int
    requires !ty.Scalar? && (Proper(ty) || ty.Array?)
  {
    if ty.Array? then 0 else ty.members[0].off
  }

  lemma {:induction false} FirstSlots(ty: Ty, off: int, many: nat)
    requires !ty.Scalar? && Proper(ty)
    ensures Slots(ty, off) == Slots(First(ty), off + FirstOff(ty)) + Siblings(Frame(ty, off, 0), false, many)
  {
    if ty.Array? {
      assert 0 * Size(ty.elem) == 0;
    }
  }

  lemma {:induction false} RestOn(s: seq<Frame>, f: Frame, many: nat)
    ensures Rest(s + [f], many) == Siblings(f, s == [], many) + Rest(s, many)
  {
    assert (s + [f])[..|s|] == s;
  }

  /** A whole type on top of a stack: its scalars come first, the one on top of the new stack at their head. */
  lemma {:induction false} PushRest(s: seq<Frame>, ty: Ty, off: int, many: nat)
    requires Proper(ty) && s != []
    ensures Push(s, ty, off) != [] &&
            [Current(Push(s, ty, off))] + Rest(Push(s, ty, off), many) == Slots(ty, off) + Rest(s, many)
    decreases ty
  {
    hide Slots, Rest, Siblings;
    var f := Frame(ty, off, 0);
    RestOn(s, f, many);
    PushTop(s, ty, off);
    if ty.Scalar? {
      ScalarSlots(ty, off, many);
    } else {
      FirstSlots(ty, off, many);
      PushRest(s + [f], First(ty), off + FirstOff(ty), many);
      Regroup(Slots(First(ty), off + FirstOff(ty)), Siblings(f, false, many), Rest(s, many));
    }
  }

  lemma {:induction false} Regroup(a: seq<Slot>, b: seq<Slot>, c: seq<Slot>)
    ensures a + b + c == a + (b + c)
  {
  }

  lemma {:induction false} ScalarSlots(ty: Ty, off: int, many: nat)
    requires ty.Scalar?
    ensures Slots(ty, off) == [Slot(off, ty)] && Siblings(Frame(ty, off, 0), false, many) == []
  {
  }

  /** The whole variable: the first scalar, and behind it the rest. */
  lemma {:induction false} PushAll(ty: Ty, off: int, many: nat)
    requires Proper(ty) || (ty.Array? && Proper(ty.elem) && many > 0)
    requires ty.Array? ==> many > 0
    ensures Push([], ty, off) != [] &&
            [Current(Push([], ty, off))] + Rest(Push([], ty, off), many) == Flattened(ty, off, many)
  {
    hide Slots, MemberSlots;
    var f := Frame(ty, off, 0);
    RestOn([], f, many);
    PushTop([], ty, off);
    if ty.Scalar? {
      ScalarSlots(ty, off, many);
    } else {
      PushRest([f], First(ty), off + FirstOff(ty), many);
      if ty.Array? {
        assert 0 * Size(ty.elem) == 0;
      } else {
        FirstSlots(ty, off, many);
      }
    }
  }

  /** A stack as it is between initializers. */
  predicate Standing(s: seq<Frame>) {
    && s != [] && Nested(s) && (Proper(s[0].ty) || (s[0].ty.Array? && Proper(s[0].ty.elem)))
  }

  function Bumped(s: seq<Frame>): seq<Frame>
    requires s != []
  {
    s[..|s| - 1] + [Top(s).(n := Top(s).n + 1)]
  }

  /** There is another part behind the one being filled. An array at the bottom always has one. */
  predicate More(f: Frame, bottom: bool) {
    match f.ty
    case Scalar(_) => false
    case Array(n, _) => f.n + 1 < n || bottom
    case Struct(_, members) => f.n + 1 < |members|
  }

  function NextTy(f: Frame, bottom: bool): Ty
    requires More(f, bottom)
  {
    if f.ty.Array? then f.ty.elem else f.ty.members[f.n + 1].ty
  }

  function NextOff(f: Frame, bottom: bool): int
    requires More(f, bottom)
  {
    if f.ty.Array? then f.off + (f.n + 1) * Size(f.ty.elem) else f.off + f.ty.members[f.n + 1].off
  }

  /** `gotscal`: entries that are done go; the next part of the one that is not is pushed. At the bottom an
      array goes on forever, and anything else stays. */
  function Advance(s: seq<Frame>): seq<Frame>
    requires Standing(s)
    decreases |s|
  {
    if |s| == 1 then s
    else
      var f := s[|s| - 2];
      var t := Bumped(s[..|s| - 1]);
      BumpStands(s);
      if More(f, |s| == 2) then Push(t, NextTy(f, |s| == 2), NextOff(f, |s| == 2)) else Advance(t)
  }

  lemma {:induction false} BumpStands(s: seq<Frame>)
    requires Standing(s) && |s| > 1
    ensures var t := Bumped(s[..|s| - 1]); Standing(t) && |t| == |s| - 1 && !Top(t).ty.Scalar?
  {
    var below := s[..|s| - 1];
    var t := Bumped(below);
    assert Part(s[|s| - 2], s[|s| - 1]);
    forall i | 0 < i < |t| ensures Part(t[i - 1], t[i]) && Proper(t[i].ty) {
      assert Part(s[i - 1], s[i]);
    }
  }

  lemma {:induction false} PushStands(s: seq<Frame>, ty: Ty, off: int)
    requires Standing(s) && Part(Top(s), Frame(ty, off, 0)) && Proper(ty)
    ensures Standing(Push(s, ty, off))
    decreases ty
  {
    var f := Frame(ty, off, 0);
    var t := s + [f];
    forall i | 0 < i < |t| ensures Part(t[i - 1], t[i]) && Proper(t[i].ty) {
      if i < |s| {
        assert Part(s[i - 1], s[i]);
      }
    }
    if !ty.Scalar? {
      assert ty.Array? ==> 0 * Size(ty.elem) == 0;
      PushStands(t, First(ty), off + FirstOff(ty));
    }
  }

  /** The next part of an entry, out of what is to come of it. */
  lemma {:induction false} NextPart(f: Frame, bottom: bool, many: nat)
    requires More(f, bottom) && !f.ty.Scalar?
    ensures Siblings(f, bottom, many) ==
      if bottom && f.ty.Array? && f.n + 1 >= many then []
      else Slots(NextTy(f, bottom), NextOff(f, bottom)) + Siblings(f.(n := f.n + 1), bottom, many)
  {
  }

  lemma {:induction false} NoPart(f: Frame, bottom: bool, many: nat)
    requires !More(f, bottom)
    ensures Siblings(f, bottom, many) == [] && Siblings(f.(n := f.n + 1), bottom, many) == []
  {
  }

  lemma {:induction false} BelowRest(s: seq<Frame>, many: nat)
    requires |s| > 1 && Siblings(Top(s), false, many) == []
    ensures var f := s[|s| - 2];
      var t := Bumped(s[..|s| - 1]);
      && Rest(s, many) == Siblings(f, |s| == 2, many) + Rest(s[..|s| - 2], many)
      && Rest(t, many) == Siblings(f.(n := f.n + 1), |s| == 2, many) + Rest(s[..|s| - 2], many)
  {
    var below := s[..|s| - 1];
    assert below[..|below| - 1] == s[..|s| - 2];
    RestOn(s[..|s| - 2], s[|s| - 2].(n := s[|s| - 2].n + 1), many);
  }

  /** When the scalar on top is done, the next one to come is on top. */
  lemma {:induction false} AdvanceRest(s: seq<Frame>, many: nat)
    requires Standing(s) && Siblings(Top(s), |s| == 1, many) == []
    ensures Standing(Advance(s)) && Advance(s)[0].ty == s[0].ty
    ensures Rest(s, many) != [] ==>
              && Top(Advance(s)).ty.Scalar?
              && [Current(Advance(s))] + Rest(Advance(s), many) == Rest(s, many)
    ensures Rest(s, many) == [] && !s[0].ty.Array? ==> |Advance(s)| == 1
    decreases |s|
  {
    hide Slots, Siblings, Rest;
    if |s| > 1 {
      var f := s[|s| - 2];
      var t := Bumped(s[..|s| - 1]);
      var g := Top(t);
      BumpStands(s);
      BelowRest(s, many);
      if More(f, |s| == 2) {
        var ty, off := NextTy(f, |s| == 2), NextOff(f, |s| == 2);
        PushStands(t, ty, off);
        PushTop(t, ty, off);
        PushRest(t, ty, off, many);
        NextPart(f, |s| == 2, many);
        Regroup(Slots(ty, off), Siblings(g, |s| == 2, many), Rest(s[..|s| - 2], many));
      } else {
        NoPart(f, |s| == 2, many);
        AdvanceRest(t, many);
      }
    } else {
      RestAlone(s, many);
    }
    RestNone(many);
  }

  lemma {:induction false} RestAlone(s: seq<Frame>, many: nat)
    requires |s| == 1
    ensures Rest(s, many) == Siblings(s[0], true, many)
  {
    hide Rest, Siblings;
    assert s == [] + [s[0]];
    RestOn([], s[0], many);
    RestNone(many);
  }

  lemma {:induction false} RestNone(many: nat)
    ensures Rest([], many) == []
  {
  }

  // ---------------------------------------------------------------------------------------
  // The whole walk

  /** The stack after k scalars have been filled. */
  function Walk(ty: Ty, off: int, k: nat): (s: seq<Frame>)
    requires Proper(ty) || (ty.Array? && Proper(ty.elem))
    ensures Standing(s) && s[0].ty == ty
  {
    if k == 0 then
      PushStart(ty, off);
      Push([], ty, off)
    else
      var s := Walk(ty, off, k - 1);
      AdvanceStands(s);
      Advance(s)
  }

  lemma {:induction false} PushStart(ty: Ty, off: int)
    requires Proper(ty) || (ty.Array? && Proper(ty.elem))
    ensures Standing(Push([], ty, off)) && Push([], ty, off)[0].ty == ty
  {
    var f := Frame(ty, off, 0);
    assert Standing([f]) && [] + [f] == [f];
    PushTop([], ty, off);
    if !ty.Scalar? {
      assert ty.Array? ==> 0 * Size(ty.elem) == 0;
      PushStands([f], First(ty), off + FirstOff(ty));
    }
  }

  lemma {:induction false} AdvanceStands(s: seq<Frame>)
    requires Standing(s)
    ensures Standing(Advance(s)) && Advance(s)[0].ty == s[0].ty
    decreases |s|
  {
    if |s| > 1 {
      var f := s[|s| - 2];
      var t := Bumped(s[..|s| - 1]);
      BumpStands(s);
      if More(f, |s| == 2) {
        PushStands(t, NextTy(f, |s| == 2), NextOff(f, |s| == 2));
        PushTop(t, NextTy(f, |s| == 2), NextOff(f, |s| == 2));
      } else {
        AdvanceStands(t);
      }
    }
  }

  /** The walk comes to the scalars of the variable in the order, and at the offsets, of its flattening; after
      the last one only the variable itself is left. */
  lemma {:induction false} WalkVisits(ty: Ty, off: int, many: nat, k: nat)
    requires (Proper(ty) || (ty.Array? && Proper(ty.elem))) && k < |Flattened(ty, off, many)|
    ensures Top(Walk(ty, off, k)).ty.Scalar? && Current(Walk(ty, off, k)) == Flattened(ty, off, many)[k]
    ensures Rest(Walk(ty, off, k), many) == Flattened(ty, off, many)[k + 1..]
  {
    hide Slots, Siblings, Rest, Push, Advance, Nested, Standing, MemberSlots;
    if k == 0 {
      assert ty.Array? ==> many > 0;
      PushAll(ty, off, many);
      PushTop([], ty, off);
    } else {
      hide Flattened, Proper;
      WalkVisits(ty, off, many, k - 1);
      NextVisit(Walk(ty, off, k - 1), many, Flattened(ty, off, many), k);
    }
  }

  /** The walk, one scalar on. */
  lemma {:induction false} NextVisit(s: seq<Frame>, many: nat, f: seq<Slot>, k: nat)
    requires Standing(s) && Top(s).ty.Scalar? && k < |f| && Rest(s, many) == f[k..]
    ensures var t := Advance(s); Standing(t) && Top(t).ty.Scalar? && Current(t) == f[k] && Rest(t, many) == f[k + 1..]
  {
    hide Slots, Siblings, Rest, Push, Advance, Nested, MemberSlots;
    TopDone(s, many);
    AdvanceRest(s, many);
    hide Standing;
    var t := Advance(s);
    assert [Current(t)] + Rest(t, many) == f[k..];
    assert Rest(t, many) == f[k..][1..];
  }

  lemma {:induction false} TopDone(s: seq<Frame>, many: nat)
    requires s != [] && Top(s).ty.Scalar?
    ensures Siblings(Top(s), |s| == 1, many) == []
  {
  }

  lemma {:induction false} WalkEnds(ty: Ty, off: int)
    requires Proper(ty) && !ty.Array?
    ensures |Walk(ty, off, |Slots(ty, off)|)| == 1
  {
    hide Slots, Siblings, Rest, Push, Advance;
    var n := |Slots(ty, off)|;
    SlotsSome(ty, off);
    WalkVisits(ty, off, 0, n - 1);
    TopDone(Walk(ty, off, n - 1), 0);
    AdvanceRest(Walk(ty, off, n - 1), 0);
  }

  lemma {:induction false} SlotsSome(ty: Ty, off: int)
    requires Proper(ty)
    ensures |Slots(ty, off)| > 0
    decreases ty
  {
    if !ty.Scalar? {
      SlotsSome(First(ty), off + FirstOff(ty));
      FirstSlots(ty, off, 0);
    }
  }

  // ---------------------------------------------------------------------------------------
  // Where the scalars are

  /** Scalars have sizes, and the members of a struct lie behind each other in it. */
  predicate Laid(ty: Ty)
    decreases ty
  {
    match ty
    case Scalar(size) => size > 0
    case Array(_, elem) => Laid(elem)
    case Struct(size, members) =>
      && size >= 0
      && (forall i :: 0 <= i < |members| ==>
            Laid(members[i].ty) && 0 <= members[i].off && members[i].off + Size(members[i].ty) <= size)
      && forall i, j :: 0 <= i < j < |members| ==> members[i].off + Size(members[i].ty) <= members[j].off
  }

  /** Scalars between lo and hi, in order, that do not overlap. */
  predicate Ranged(s: seq<Slot>, lo: int, hi: int) {
    && (forall i :: 0 <= i < |s| ==>
          s[i].ty.Scalar? && s[i].ty.size > 0 && lo <= s[i].off && s[i].off + s[i].ty.size <= hi)
    && forall i, j :: 0 <= i < j < |s| ==> s[i].off + s[i].ty.size <= s[j].off
  }

  /** They fill what is between lo and hi. */
  predicate Filling(s: seq<Slot>, lo: int, hi: int) {
    && Ranged(s, lo, hi)
    && if s == [] then lo == hi
       else
         && s[0].off == lo && s[|s| - 1].off + s[|s| - 1].ty.size == hi
         && forall i :: 0 <= i < |s| - 1 ==> s[i].off + s[i].ty.size == s[i + 1].off
  }

  lemma {:induction false} Joined(a: seq<Slot>, b: seq<Slot>, lo: int, mid: int, mid': int, hi: int)
    requires lo <= mid <= mid' <= hi && Ranged(a, lo, mid) && Ranged(b, mid', hi)
    ensures Ranged(a + b, lo, hi)
    ensures mid == mid' && Filling(a, lo, mid) && Filling(b, mid, hi) ==> Filling(a + b, lo, hi)
  {
    JoinedRanged(a, b, lo, mid, mid', hi);
    hide Ranged;
    if a != [] && b != [] && mid == mid' && Filling(a, lo, mid) && Filling(b, mid, hi) {
      var s := a + b;
      assert s[0] == a[0] && s[|s| - 1] == b[|b| - 1];
      forall i | 0 <= i < |s| - 1 ensures s[i].off + s[i].ty.size == s[i + 1].off {
        if i + 1 < |a| {
          assert s[i] == a[i] && s[i + 1] == a[i + 1];
        } else if i < |a| {
          assert s[i] == a[|a| - 1] && s[i + 1] == b[0];
        } else {
          assert s[i] == b[i - |a|] && s[i + 1] == b[i - |a| + 1];
        }
      }
    } else {
      assert a == [] ==> a + b == b;
      assert b == [] ==> a + b == a;
    }
  }

  lemma {:induction false} JoinedRanged(a: seq<Slot>, b: seq<Slot>, lo: int, mid: int, mid': int, hi: int)
    requires lo <= mid <= mid' <= hi && Ranged(a, lo, mid) && Ranged(b, mid', hi)
    ensures Ranged(a + b, lo, hi)
  {
    var s := a + b;
    forall i, j | 0 <= i < j < |s| ensures s[i].off + s[i].ty.size <= s[j].off {
      if j < |a| {
        assert s[i] == a[i] && s[j] == a[j];
      } else if i < |a| {
        assert s[i] == a[i] && s[j] == b[j - |a|];
      } else {
        assert s[i] == b[i - |a|] && s[j] == b[j - |a|];
      }
    }
  }

  /** The scalars of a type do not overlap and lie within its size. */
  lemma {:induction false} SlotsApart(ty: Ty, off: int)
    requires Laid(ty)
    ensures Size(ty) >= 0 && Ranged(Slots(ty, off), off, off + Size(ty))
    decreases ty, 0
  {
    hide Ranged;
    match ty
    case Scalar(size) => OneSlot(ty, off);
    case Array(n, elem) =>
      ElemsApart(elem, off, 0, n);
      assert 0 * Size(elem) == 0;
    case Struct(size, members) =>
      MembersApart(ty, off, 0);
      RangedFrom(MemberSlots(ty, off, 0), off, if |members| > 0 then off + members[0].off else off + size, off + size);
  }

  lemma {:induction false} OneSlot(ty: Ty, off: int)
    requires ty.Scalar? && ty.size > 0
    ensures Filling(Slots(ty, off), off, off + Size(ty))
  {
  }

  lemma {:induction false} RangedFrom(s: seq<Slot>, lo: int, from: int, hi: int)
    requires Ranged(s, from, hi) && lo <= from
    ensures Ranged(s, lo, hi)
  {
  }

  lemma {:induction false} ElemsApart(elem: Ty, off: int, k: nat, n: nat)
    requires Laid(elem) && k <= n
    ensures Size(elem) >= 0 && 0 <= (n - k) * Size(elem) == n * Size(elem) - k * Size(elem)
    ensures Ranged(ElemSlots(elem, off, k, n), off + k * Size(elem), off + n * Size(elem))
    decreases elem, 1, n - k
  {
    hide Ranged, Filling;
    SlotsApart(elem, off);
    if k < n {
      SlotsApart(elem, off + k * Size(elem));
      ElemsApart(elem, off, k + 1, n);
      NextElem(k, n, Size(elem));
      Joined(Slots(elem, off + k * Size(elem)), ElemSlots(elem, off, k + 1, n), off + k * Size(elem),
             off + (k + 1) * Size(elem), off + (k + 1) * Size(elem), off + n * Size(elem));
    } else {
      NoSlots(off + n * Size(elem));
    }
  }

  lemma {:induction false} NextElem(k: int, n: int, size: int)
    ensures (k + 1) * size == k * size + size && (n - k) * size == n * size - k * size
    ensures (n - k) * size == (n - (k + 1)) * size + size
  {
  }

  lemma {:induction false} NoSlots(at: int)
    ensures Filling([], at, at) && Ranged([], at, at)
  {
  }

  lemma {:induction false} MembersApart(ty: Ty, off: int, x: nat)
    requires ty.Struct? && Laid(ty) && x <= |ty.members|
    ensures Ranged(MemberSlots(ty, off, x), if x < |ty.members| then off + ty.members[x].off else off + ty.size,
                   off + ty.size)
    decreases ty, 0, |ty.members| - x
  {
    hide Ranged, Filling;
    if x < |ty.members| {
      var m := ty.members[x];
      SlotsApart(m.ty, off + m.off);
      MembersApart(ty, off, x + 1);
      if x + 1 < |ty.members| {
        SlotsApart(ty.members[x + 1].ty, off);
      }
      Joined(Slots(m.ty, off + m.off), MemberSlots(ty, off, x + 1), off + m.off, off + m.off + Size(m.ty),
             if x + 1 < |ty.members| then off + ty.members[x + 1].off else off + ty.size, off + ty.size);
    } else {
      NoSlots(off + ty.size);
    }
  }

  /** Scalars, arrays of them, arrays of those and so on. */
  predicate Plain(ty: Ty) {
    match ty
    case Scalar(size) => size > 0
    case Array(_, elem) => Plain(elem)
    case Struct(_, _) => false
  }

  /** The scalars of an array, of however many dimensions, lie one behind the other and take all of its size. */
  lemma {:induction false} SlotsTouch(ty: Ty, off: int)
    requires Plain(ty)
    ensures Laid(ty) && Filling(Slots(ty, off), off, off + Size(ty))
    decreases ty, 0
  {
    hide Filling, Ranged;
    match ty
    case Scalar(size) => OneSlot(ty, off);
    case Array(n, elem) =>
      ElemsTouch(elem, off, 0, n);
      assert 0 * Size(elem) == 0;
  }

  lemma {:induction false} ElemsTouch(elem: Ty, off: int, k: nat, n: nat)
    requires Plain(elem) && k <= n
    ensures Laid(elem) && Filling(ElemSlots(elem, off, k, n), off + k * Size(elem), off + n * Size(elem))
    decreases elem, 1, n - k
  {
    hide Filling, Ranged;
    SlotsTouch(elem, off + k * Size(elem));
    ElemsApart(elem, off, k, n);
    if k < n {
      ElemsTouch(elem, off, k + 1, n);
      SlotsApart(elem, off + k * Size(elem));
      ElemsApart(elem, off, k + 1, n);
      NextElem(k, n, Size(elem));
      Joined(Slots(elem, off + k * Size(elem)), ElemSlots(elem, off, k + 1, n), off + k * Size(elem),
             off + (k + 1) * Size(elem), off + (k + 1) * Size(elem), off + n * Size(elem));
    } else {
      NoSlots(off + n * Size(elem));
    }
  }

  /** All scalars of a variable, an array as far as it is taken to go. */
  lemma {:induction false} FlattenedApart(ty: Ty, off: int, many: nat)
    requires Laid(ty)
    ensures var hi := off + if ty.Array? then many * Size(ty.elem) else Size(ty);
      && Ranged(Flattened(ty, off, many), off, hi)
      && (Plain(ty) ==> Filling(Flattened(ty, off, many), off, hi))
  {
    hide Ranged, Filling;
    if ty.Array? {
      ElemsApart(ty.elem, off, 0, many);
      if Plain(ty) {
        ElemsTouch(ty.elem, off, 0, many);
      }
      assert 0 * Size(ty.elem) == 0;
    } else {
      SlotsApart(ty, off);
      if Plain(ty) {
        SlotsTouch(ty, off);
      }
    }
  }

  /** No scalar the walk comes to overlaps one that it came to before, none leaves the variable, and without structs
      nothing is left out between them. */
  lemma {:induction false} WalkApart(ty: Ty, off: int, many: nat, j: nat, k: nat)
    requires (Proper(ty) || (ty.Array? && Proper(ty.elem))) && Laid(ty) && j < k < |Flattened(ty, off, many)|
    ensures var a, b := Current(Walk(ty, off, j)), Current(Walk(ty, off, k));
      && a.ty.Scalar? && b.ty.Scalar? && off <= a.off && a.off + a.ty.size <= b.off
      && b.off + b.ty.size <= off + (if ty.Array? then many * Size(ty.elem) else Size(ty))
      && (Plain(ty) && k == j + 1 ==> a.off + a.ty.size == b.off)
      && (Plain(ty) && j == 0 ==> a.off == off)
  {
    hide Walk, Flattened;
    WalkVisits(ty, off, many, j);
    WalkVisits(ty, off, many, k);
    FlattenedApart(ty, off, many);
  }
}
