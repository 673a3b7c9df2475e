/** The stack on which aggregates are walked while they are initialized: `instk` and `gotscal` of pftn.c on
    the array of entries. */
module InitStack {

  import opened Aggregates

  const DEPTH := 10

  class InitStack {
    const instack: array<Frame>
    // the entry on top; -1 before the first
    var pstk: int

    ghost predicate Shaped()
      reads this, instack
    {
      instack.Length == DEPTH && -1 <= pstk < DEPTH
    }

    ghost function Stack(): seq<Frame>
      requires Shaped()
      reads this, instack
    {
      instack[..pstk + 1]
    }

    /** The types of all entries fit above their places. */
    ghost predicate Room()
      requires Shaped()
      reads this, instack
    {
      forall i :: 0 <= i <= pstk ==> i + Depth(instack[i].ty) <= DEPTH
    }

    ghost predicate Valid()
      reads this, instack
    {
      Shaped() && Standing(Stack()) && Room()
    }

    /** `beginit`, for a type no deeper than the stack */
    constructor (ty: Ty, off: int)
      requires Proper(ty) || (ty.Array? && Proper(ty.elem))
      requires Depth(ty) <= DEPTH
      ensures Valid() && Stack() == Walk(ty, off, 0) && fresh(instack)
    {
      instack := new Frame[DEPTH](i => Frame(Scalar(0), 0, 0));
      pstk := -1;
      new;
      PushStart(ty, off);
      Instk(ty, off);
    }

    /** `instk` */
    method Instk(ty: Ty, off: int)
      requires Shaped() && Room() && (Proper(ty) || (pstk == -1 && ty.Array? && Proper(ty.elem)))
      requires pstk + 1 + Depth(ty) <= DEPTH
      modifies this, instack
      ensures Shaped() && Stack() == Push(old(Stack()), ty, off) && Room()
    {
      var t, o := ty, off;
      while true
        invariant Shaped() && Room() && (Proper(t) || (pstk == -1 && t.Array? && Proper(t.elem)))
        invariant pstk + 1 + Depth(t) <= DEPTH && Push(Stack(), t, o) == Push(old(Stack()), ty, off)
        decreases t
      {
        ghost var s := Stack();
        pstk := pstk + 1;
        instack[pstk] := Frame(t, o, 0);
        assert Stack() == s + [Frame(t, o, 0)];
        match t
        case Scalar(_) => return;
        case Array(_, elem) => t := elem;
        case Struct(_, members) => t, o := members[0].ty, o + members[0].off;
      }
    }

    /** The entry on top goes, and the one below it turns to its next part. */
    method Bump() returns (f: Frame)
      requires Valid() && pstk > 0
      modifies this, instack
      ensures Valid() && pstk == old(pstk) - 1 && f == old(instack[pstk - 1])
      ensures Stack() == Bumped(old(Stack())[..old(pstk)]) && Top(Stack()) == f.(n := f.n + 1)
    {
      ghost var s := Stack();
      BumpStands(s);
      pstk := pstk - 1;
      f := instack[pstk];
      instack[pstk] := f.(n := f.n + 1);
      assert Stack() == Bumped(s[..|s| - 1]);
    }

    /** `gotscal` */
    method Gotscal()
      requires Valid()
      modifies this, instack
      ensures Valid() && Stack() == Advance(old(Stack()))
    {
      hide Push, Advance, Standing, Proper, Depth, Bumped;
      AdvanceStands(Stack());
      NotEmpty(Stack());
      while pstk > 0
        invariant pstk >= 0 && Valid() && Advance(Stack()) == Advance(old(Stack()))
        decreases pstk
      {
        ghost var s := Stack();
        AdvanceIs(s);
        var f := Bump();
        NextFits(s, f, pstk == 0);
        match f.ty
        case Struct(_, members) =>
          if f.n + 1 < |members| {
            Instk(members[f.n + 1].ty, f.off + members[f.n + 1].off);
            return;
          }
        case Array(n, elem) =>
          if !(f.n + 1 >= n && pstk > 0) {
            Instk(elem, f.off + (f.n + 1) * Size(elem));
            return;
          }
      }
      AdvanceIs(Stack());
    }
  }

  lemma {:induction false} NotEmpty(s: seq<Frame>)
    requires Standing(s)
    ensures s != []
  {
  }

  lemma {:induction false} AdvanceIs(s: seq<Frame>)
    requires Standing(s)
    ensures if |s| == 1 then Advance(s) == s
            else
              var (f, t) := (s[|s| - 2], Bumped(s[..|s| - 1]));
              Standing(t) && Advance(s) == if More(f, |s| == 2) then Push(t, NextTy(f, |s| == 2), NextOff(f, |s| ==
                2)) else Advance(t)
  {
    if |s| > 1 {
      BumpStands(s);
    }
  }

  /** The entry below the top is an aggregate, and its parts are less deep. */
  lemma {:induction false} NextFits(s: seq<Frame>, f: Frame, bottom: bool)
    requires Standing(s) && |s| > 1 && f == s[|s| - 2] && bottom == (|s| == 2)
    ensures !f.ty.Scalar? && (More(f, bottom) ==> Proper(NextTy(f, bottom)) && Depth(NextTy(f, bottom)) < Depth(f.ty))
  {
    assert Part(f, s[|s| - 1]);
    if |s| > 2 {
      assert Proper(s[|s| - 2].ty);
    }
  }
}
