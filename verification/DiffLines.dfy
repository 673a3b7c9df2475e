/** Lines of a file seen through a bounded window, and their comparison (`getl`, `clrl`, `cmp` of diffh.c). */
module DiffLines {

  import opened Basics

  const RANGE := 30

  predicate Space(c: char) {
    c == ' ' || c == '\t' || c == '\n' || c == '\r' || c as int == 11 || c as int == 12
  }

  /** The character at i; 0 at the end. */
  function CharAt(s: string, i: nat): int {
    if i < |s| then s[i] as int else 0
  }

  predicate SpaceAt(s: string, i: nat) {
    i < |s| && Space(s[i])
  }

  /** The first place from i on that is no space. */
  function Skip(s: string, i: nat): (r: nat)
    ensures r >= i && (i <= |s| ==> r <= |s|)
    decreases |s| - i
  {
    if SpaceAt(s, i) then Skip(s, i + 1) else i
  }

  /** Lines that compare equal: character by character, or, with blanks set, taking any run of spaces for any
      other. */
  predicate Alike(s: string, t: string, i: nat, j: nat, blanks: bool)
    decreases |s| - i
  {
    var both := blanks && SpaceAt(s, i) && SpaceAt(t, j);
    var i', j' := if both then Skip(s, i + 1) else i, if both then Skip(t, j + 1) else j;
    CharAt(s, i') == CharAt(t, j') && (CharAt(s, i') == 0 || Alike(s, t, i' + 1, j' + 1, blanks))
  }

  /** A line compares equal with itself. */
  lemma {:induction false} AlikeSelf(s: string, i: nat, blanks: bool)
    ensures Alike(s, s, i, i, blanks)
    decreases |s| - i
  {
    var i' := if blanks && SpaceAt(s, i) then Skip(s, i + 1) else i;
    if CharAt(s, i') != 0 {
      AlikeSelf(s, i' + 1, blanks);
    }
  }

  /** Lines end at a character 0. */
  predicate NoNul(s: string) {
    forall i :: 0 <= i < |s| ==> s[i] as int != 0
  }

  /** s from i on with every run of spaces made one. */
  function Squeezed(s: string, i: nat): string
    decreases |s| - i
  {
    if i >= |s| then ""
    else if Space(s[i]) then " " + Squeezed(s, Skip(s, i + 1))
    else [s[i]] + Squeezed(s, i + 1)
  }

  lemma {:induction false} SkipEnds(s: string, i: nat)
    ensures !SpaceAt(s, Skip(s, i))
    decreases |s| - i
  {
    if SpaceAt(s, i) {
      SkipEnds(s, i + 1);
    }
  }

  /** Without blanks, lines that compare equal are equal. */
  lemma {:induction false} AlikeEqual(s: string, t: string, i: nat, j: nat)
    requires NoNul(s) && NoNul(t) && i <= |s| && j <= |t|
    ensures Alike(s, t, i, j, false) <==> s[i..] == t[j..]
    decreases |s| - i
  {
    if i < |s| && j < |t| && s[i] == t[j] {
      AlikeEqual(s, t, i + 1, j + 1);
      assert s[i..] == [s[i]] + s[i + 1..] && t[j..] == [t[j]] + t[j + 1..];
    } else if i < |s| && j < |t| {
      assert s[i..][0] != t[j..][0];
    }
  }

  /** With blanks, they are equal once every run of spaces is made one. */
  lemma {:induction false} AlikeSqueezed(s: string, t: string, i: nat, j: nat)
    requires NoNul(s) && NoNul(t) && i <= |s| && j <= |t|
    ensures Alike(s, t, i, j, true) <==> Squeezed(s, i) == Squeezed(t, j)
    decreases |s| - i
  {
    hide Squeezed, Skip;
    var both := SpaceAt(s, i) && SpaceAt(t, j);
    var i', j' := if both then Skip(s, i + 1) else i, if both then Skip(t, j + 1) else j;
    if both {
      SkipEnds(s, i + 1);
      SkipEnds(t, j + 1);
      SqueezedTail(s, i, t, j);
    }
    SqueezedStep(s, i', t, j');
    if i' < |s| && j' < |t| && s[i'] == t[j'] {
      AlikeSqueezed(s, t, i' + 1, j' + 1);
    }
  }

  /** The next characters, not both spaces. */
  lemma {:induction false} SqueezedStep(s: string, i: nat, t: string, j: nat)
    requires NoNul(s) && NoNul(t) && i <= |s| && j <= |t| && !(SpaceAt(s, i) && SpaceAt(t, j))
    ensures Squeezed(s, i) == Squeezed(t, j)
       <==> CharAt(s, i) == CharAt(t, j) && (i == |s| || Squeezed(s, i + 1) == Squeezed(t, j + 1))
  {
    if i < |s| {
      SqueezedHead(s, i);
    }
    if j < |t| {
      SqueezedHead(t, j);
    }
    if i < |s| && j < |t| && s[i] == t[j] {
      assert Squeezed(s, i)[1..] == Squeezed(s, i + 1) && Squeezed(t, j)[1..] == Squeezed(t, j + 1);
    }
  }

  lemma {:induction false} SqueezedTail(s: string, i: nat, t: string, j: nat)
    requires SpaceAt(s, i) && SpaceAt(t, j)
    ensures Squeezed(s, i) == Squeezed(t, j) <==> Squeezed(s, Skip(s, i + 1)) == Squeezed(t, Skip(t, j + 1))
  {
    assert Squeezed(s, i)[1..] == Squeezed(s, Skip(s, i + 1));
    assert Squeezed(t, j)[1..] == Squeezed(t, Skip(t, j + 1));
  }

  lemma {:induction false} SqueezedHead(s: string, i: nat)
    requires i < |s|
    ensures Squeezed(s, i) != "" && Squeezed(s, i)[0] == if Space(s[i]) then ' ' else s[i]
    ensures !Space(s[i]) ==> Squeezed(s, i) == [s[i]] + Squeezed(s, i + 1)
  {
  }

  /** `cmp`, as far as it tells equal from different */
  method Cmp(s: string, t: string, blanks: bool) returns (equal: bool)
    ensures equal == Alike(s, t, 0, 0, blanks)
    ensures NoNul(s) && NoNul(t) ==> equal == if blanks then Squeezed(s, 0) == Squeezed(t, 0) else s == t
  {
    if NoNul(s) && NoNul(t) {
      AlikeEqual(s, t, 0, 0);
      AlikeSqueezed(s, t, 0, 0);
    }
    var i, j := 0, 0;
    while true
      invariant 0 <= i <= |s| && 0 <= j && Alike(s, t, i, j, blanks) == Alike(s, t, 0, 0, blanks)
      decreases |s| - i
    {
      ghost var i0, j0 := i, j;
      if blanks && SpaceAt(s, i) && SpaceAt(t, j) {
        i := i + 1;
        while SpaceAt(s, i)
          invariant i0 < i <= |s| && Skip(s, i) == Skip(s, i0 + 1)
          decreases |s| - i
        {
          i := i + 1;
        }
        j := j + 1;
        while SpaceAt(t, j)
          invariant j0 < j <= |t| && Skip(t, j) == Skip(t, j0 + 1)
          decreases |t| - j
        {
          j := j + 1;
        }
      }
      if CharAt(s, i) != CharAt(t, j) || CharAt(s, i) == 0 {
        return CharAt(s, i) == CharAt(t, j);
      }
      i, j := i + 1, j + 1;
    }
  }

  /** The stored lines of one file, and how far it has been read. */
  class Window {
    const file: seq<string>
    const text: array<string>
    var lineno: nat
    var ntext: nat
    var pos: nat

    ghost predicate Valid()
      reads this, text
    {
      && text.Length == RANGE && ntext <= RANGE && lineno >= 1 && pos == lineno - 1 + ntext <= |file|
      && forall i :: 0 <= i < ntext ==> text[i] == file[lineno - 1 + i]
    }

    constructor (file: seq<string>)
      ensures Valid() && this.file == file && lineno == 1 && ntext == 0 && fresh(text)
    {
      this.file := file;
      text := new string[RANGE](i => "");
      lineno, ntext, pos := 1, 0, 0;
    }

    /** Lines that `getl` can deliver without going wrong: stored ones, and the next one if there is room. */
    predicate Near(n: nat)
      reads this
    {
      lineno <= n <= lineno + ntext && n < lineno + RANGE
    }

    /** `getl`: line n, or nothing behind the end of the file. */
    method Getl(n: nat) returns (r: Option<string>)
      requires Valid() && Near(n)
      modifies this`ntext, this`pos, text
      ensures Valid() && r == if n <= |file| then Some(file[n - 1]) else None
      ensures ntext == if n == lineno + old(ntext) && n <= |file| then old(ntext) + 1 else old(ntext)
    {
      var delta := n - lineno;
      var nt := ntext;
      if delta < nt {
        return Some(text[delta]);
      }
      if pos == |file| {
        return None;
      }
      text[nt] := file[pos];
      pos := pos + 1;
      ntext := ntext + 1;
      return Some(text[nt]);
    }

    /** `clrl`: forgets lines up to n. */
    method Clrl(n: nat)
      requires Valid() && lineno <= n < lineno + ntext
      modifies this`lineno, this`ntext, text
      ensures Valid() && lineno == n + 1 && lineno + ntext == old(lineno + ntext)
    {
      var j := n - lineno + 1;
      var i := 0;
      while i + j < ntext
        invariant lineno == old(lineno) && ntext == old(ntext) && 0 <= i <= ntext - j
        invariant forall k :: 0 <= k < i ==> text[k] == file[lineno - 1 + j + k]
        invariant forall k :: i <= k < ntext ==> text[k] == file[lineno - 1 + k]
      {
        text[i] := text[i + j];
        i := i + 1;
      }
      assert forall k :: 0 <= k < ntext - j ==> text[k] == file[n + 1 - 1 + k];
      lineno, ntext := n + 1, ntext - j;
    }
  }
}
