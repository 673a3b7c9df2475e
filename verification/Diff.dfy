/** The differences of two files, found by resynchronizing within a window (`main`, `easysynch`, `output` of
    diffh.c). */
module Diff {

  import opened Basics
  import opened DiffLines

  const C := 3
  const INF := 16384

  /** What is printed; b or d INF is printed as $. */
  datatype Out =
    | Change(a: int, b: int, c: int, d: int, how: char)
    | Less(line: string)
    | Dashes
    | Greater(line: string)
    | Omitted

  /** A change: the lines gone behind the first start lines of one file are the lines come of the other, behind
      its first at lines. a and b are what `output` was called with. */
  datatype Hunk = Hunk(start: nat, at: nat, a: int, b: int, gone: seq<string>, come: seq<string>)

  // ---------------------------------------------------------------------------------------
  // Replay

  /** How many lines `output` takes, of the number that are left. */
  function Count(a: int, left: nat): nat {
    if a < 0 then 0 else if a + 1 <= left then a + 1 else left
  }

  predicate FitsLast(f: seq<string>, g: seq<string>, h: Hunk) {
    && h.start <= |f| && h.at <= |g|
    && |h.gone| == Count(h.a, |f| - h.start) && |h.come| == Count(h.b, |g| - h.at)
    && f[h.start..h.start + |h.gone|] == h.gone && g[h.at..h.at + |h.come|] == h.come
  }

  /** The changes lie one behind the other in the first n lines of f and m lines of g, and have the lines that
      are there. */
  predicate Fits(f: seq<string>, g: seq<string>, hs: seq<Hunk>, n: nat, m: nat) {
    n <= |f| && m <= |g| &&
    if hs == [] then true
    else
      var h := hs[|hs| - 1];
      FitsLast(f, g, h) && h.start + |h.gone| <= n && h.at + |h.come| <= m && Fits(f, g, hs[..|hs| - 1], h.start, h.at)
  }

  /** The first n lines of f with the changes made. */
  function Patched(f: seq<string>, hs: seq<Hunk>, n: nat): seq<string>
    requires n <= |f| && forall i :: 0 <= i < |hs| ==> hs[i].start + |hs[i].gone| <= |f|
  {
    if hs == [] then f[..n]
    else
      var h := hs[|hs| - 1];
      var from := h.start + |h.gone|;
      Patched(f, hs[..|hs| - 1], h.start) + h.come + if from <= n then f[from..n] else []
  }

  /** The same lines, as far as the comparison goes. */
  predicate SameLines(s: seq<string>, t: seq<string>, blanks: bool) {
    |s| == |t| && forall i :: 0 <= i < |s| ==> s[i] == t[i] || Alike(s[i], t[i], 0, 0, blanks)
  }

  /** The changes made to the first n lines of f give the first m lines of g. */
  ghost predicate Replays(f: seq<string>, g: seq<string>, hs: seq<Hunk>, n: nat, m: nat, blanks: bool) {
    && Fits(f, g, hs, n, m) && (forall i :: 0 <= i < |hs| ==> hs[i].start + |hs[i].gone| <= |f|)
    && SameLines(Patched(f, hs, n), g[..m], blanks)
  }

  /** A line that compares equal in both files. */
  lemma {:induction false} ReplaysLine(f: seq<string>, g: seq<string>, hs: seq<Hunk>, n: nat, m: nat, blanks: bool)
    requires Replays(f, g, hs, n, m, blanks) && n < |f| && m < |g| && Alike(f[n], g[m], 0, 0, blanks)
    ensures Replays(f, g, hs, n + 1, m + 1, blanks)
  {
    hide FitsLast;
    assert Patched(f, hs, n + 1) == Patched(f, hs, n) + [f[n]];
    assert g[..m + 1] == g[..m] + [g[m]];
  }

  /** Another change. */
  lemma {:induction false} ReplaysHunk(f: seq<string>, g: seq<string>, hs: seq<Hunk>, n: nat, m: nat, h: Hunk,
                                       blanks: bool)
    requires Replays(f, g, hs, n, m, blanks) && h.start == n && h.at == m && FitsLast(f, g, h)
    ensures Replays(f, g, hs + [h], n + |h.gone|, m + |h.come|, blanks)
  {
    var more := hs + [h];
    assert more[..|hs|] == hs;
    assert Patched(f, more, n + |h.gone|) == Patched(f, hs, n) + h.come;
    assert g[..m + |h.come|] == g[..m] + h.come;
  }

  // ---------------------------------------------------------------------------------------
  // The printed form

  function Lesses(lines: seq<string>): seq<Out> {
    if lines == [] then [] else Lesses(lines[..|lines| - 1]) + [Less(lines[|lines| - 1])]
  }

  function Greaters(lines: seq<string>): seq<Out> {
    if lines == [] then [] else Greaters(lines[..|lines| - 1]) + [Greater(lines[|lines| - 1])]
  }

  lemma {:induction false} LessesNone(f: seq<string>, from: nat)
    requires from <= |f|
    ensures Lesses(f[from..from + 0]) == [] && Greaters(f[from..from + 0]) == []
  {
  }

  lemma {:induction false} LessesMore(f: seq<string>, from: nat, i: nat)
    requires from + i < |f|
    ensures Lesses(f[from..from + (i + 1)]) == Lesses(f[from..from + i]) + [Less(f[from + i])]
    ensures Greaters(f[from..from + (i + 1)]) == Greaters(f[from..from + i]) + [Greater(f[from + i])]
  {
    assert f[from..from + (i + 1)][..i] == f[from..from + i];
  }

  function Header(h: Hunk): Out {
    if h.a < 0 then Change(h.start, 0, h.at + 1, h.b, 'a')
    else if h.b < 0 then Change(h.start + 1, h.a, h.at, 0, 'd')
    else Change(h.start + 1, h.a, h.at + 1, h.b, 'c')
  }

  /** Lines from to from + more of a file, numbered from 1, as far as there are such lines. */
  function Numbered(f: seq<string>, from: int, more: int): seq<string>
    requires 1 <= from <= |f| + 1
  {
    if more < 0 then [] else if from + more <= |f| then f[from - 1..from + more] else f[from - 1..]
  }

  /** A header has in both ranges the numbers of the lines gone and come, or of the line they would follow. */
  lemma {:induction false} HeaderNumbers(f: seq<string>, g: seq<string>, h: Hunk)
    requires FitsLast(f, g, h)
    ensures match Header(h)
            case Change(a, b, c, d, how) =>
              && (if how == 'a' then a == h.start && h.gone == []
                  else 1 <= a <= |f| + 1 && Numbered(f, a, b) == h.gone)
              && (if how == 'd' then c == h.at && h.come == []
                  else 1 <= c <= |g| + 1 && Numbered(g, c, d) == h.come)
            case _ => false
  {
    if h.a >= 0 {
      assert Numbered(f, h.start + 1, h.a) == f[h.start..h.start + |h.gone|];
    }
    if h.b >= 0 {
      assert Numbered(g, h.at + 1, h.b) == g[h.at..h.at + |h.come|];
    }
  }

  function Report(h: Hunk): seq<Out> {
    [Header(h)] + Lesses(h.gone) + (if h.a >= 0 && h.b >= 0 then [Dashes] else []) + Greaters(h.come)
  }

  function Reports(hs: seq<Hunk>): seq<Out> {
    if hs == [] then [] else Reports(hs[..|hs| - 1]) + Report(hs[|hs| - 1])
  }

  // ---------------------------------------------------------------------------------------
  // Replaying what has been printed

  /** A patch being made: the lines so far, and how many of the first file have been used up. */
  datatype Patch = Patch(text: seq<string>, at: nat)

  /** The printed lines taken one after the other. A header copies the lines before it, a line behind < is left out,
      and one behind > is put in. */
  function Apply(f: seq<string>, out: seq<Out>): Patch {
    if out == [] then Patch([], 0)
    else
      var p := Apply(f, out[..|out| - 1]);
      match out[|out| - 1]
      case Change(a, _, _, _, how) =>
        var start := if how == 'a' then a else a - 1;
        if p.at <= start <= |f| then Patch(p.text + f[p.at..start], start) else p
      case Less(_) => p.(at := p.at + 1)
      case Greater(line) => p.(text := p.text + [line])
      case Dashes => p
      case Omitted => p
  }

  /** The first n lines of f as changed by what has been printed. */
  function Replayed(f: seq<string>, out: seq<Out>, n: nat): seq<string> {
    var p := Apply(f, out);
    p.text + if p.at <= n <= |f| then f[p.at..n] else []
  }

  lemma {:induction false} ApplyLesses(f: seq<string>, out: seq<Out>, lines: seq<string>)
    ensures Apply(f, out + Lesses(lines)) == var p := Apply(f, out); p.(at := p.at + |lines|)
  {
    if lines == [] {
      assert out + Lesses(lines) == out;
    } else {
      var n := |lines| - 1;
      var more := out + Lesses(lines);
      assert more[..|more| - 1] == out + Lesses(lines[..n]);
      ApplyLesses(f, out, lines[..n]);
    }
  }

  lemma {:induction false} ApplyGreaters(f: seq<string>, out: seq<Out>, lines: seq<string>)
    ensures Apply(f, out + Greaters(lines)) == var p := Apply(f, out); p.(text := p.text + lines)
  {
    if lines == [] {
      assert out + Greaters(lines) == out;
      assert Apply(f, out).text + lines == Apply(f, out).text;
    } else {
      var n := |lines| - 1;
      var more := out + Greaters(lines);
      assert more[..|more| - 1] == out + Greaters(lines[..n]);
      ApplyGreaters(f, out, lines[..n]);
      assert lines == lines[..n] + [lines[n]];
    }
  }

  lemma {:induction false} ApplyOne(f: seq<string>, out: seq<Out>, o: Out)
    ensures Apply(f, out + [o]) ==
      var p := Apply(f, out);
      match o
      case Change(a, _, _, _, how) =>
        var start := if how == 'a' then a else a - 1;
        if p.at <= start <= |f| then Patch(p.text + f[p.at..start], start) else p
      case Less(_) => p.(at := p.at + 1)
      case Greater(line) => p.(text := p.text + [line])
      case Dashes => p
      case Omitted => p
  {
    assert (out + [o])[..|out|] == out;
  }

  /** The report of one change, taken behind what has been made before. */
  lemma {:induction false} ApplyReport(f: seq<string>, out: seq<Out>, h: Hunk)
    requires Apply(f, out).at <= h.start <= |f|
    ensures var p := Apply(f, out);
      Apply(f, out + Report(h)) == Patch(p.text + f[p.at..h.start] + h.come, h.start + |h.gone|)
  {
    hide Apply;
    var o1 := out + [Header(h)];
    ApplyOne(f, out, Header(h));
    var o2 := o1 + Lesses(h.gone);
    ApplyLesses(f, o1, h.gone);
    var o3 := o2 + if h.a >= 0 && h.b >= 0 then [Dashes] else [];
    if h.a >= 0 && h.b >= 0 {
      ApplyOne(f, o2, Dashes);
    } else {
      assert o3 == o2;
    }
    ApplyGreaters(f, o3, h.come);
    assert out + Report(h) == o3 + Greaters(h.come);
  }

  lemma {:induction false} ReplayedNext(f: seq<string>, out: seq<Out>, h: Hunk, n: nat)
    requires Apply(f, out).at <= h.start && h.start + |h.gone| <= n <= |f|
    ensures Apply(f, out + Report(h)).at <= n
    ensures Replayed(f, out + Report(h), n) == Replayed(f, out, h.start) + h.come + f[h.start + |h.gone|..n]
  {
    hide Apply, Report;
    ApplyReport(f, out, h);
  }

  lemma {:induction false} FitsBefore(f: seq<string>, g: seq<string>, hs: seq<Hunk>, n: nat, m: nat)
    requires Fits(f, g, hs, n, m)
    ensures n <= |f|
    ensures hs != [] ==> var h := hs[|hs| - 1];
              h.start + |h.gone| <= n && Fits(f, g, hs[..|hs| - 1], h.start, h.at)
  {
  }

  /** The changes reported, taken from what has been printed, give what the changes give. */
  lemma {:induction false} ReplayedIs(f: seq<string>, g: seq<string>, hs: seq<Hunk>, n: nat, m: nat)
    requires Fits(f, g, hs, n, m) && forall i :: 0 <= i < |hs| ==> hs[i].start + |hs[i].gone| <= |f|
    ensures Apply(f, Reports(hs)).at <= n && Replayed(f, Reports(hs), n) == Patched(f, hs, n)
  {
    hide Apply, Replayed, Report, Fits, FitsLast;
    FitsBefore(f, g, hs, n, m);
    if hs == [] {
      NothingApplied(f, n);
    } else {
      var h, before := hs[|hs| - 1], hs[..|hs| - 1];
      ReplayedIs(f, g, before, h.start, h.at);
      ReplayedNext(f, Reports(before), h, n);
    }
  }

  /** Replayed further, with no more printed. */
  lemma {:induction false} ReplayedOn(f: seq<string>, out: seq<Out>, n: nat)
    requires Apply(f, out).at <= n <= |f|
    ensures Replayed(f, out, |f|) == Replayed(f, out, n) + f[n..]
  {
  }

  /** When one file has come to its end and up to INF + 1 lines of the other have been put out, nothing is missing
      exactly if that were all. */
  lemma {:induction false} WholeWhen(f: seq<string>, g: seq<string>, out: seq<Out>, n: nat, m: nat, blanks: bool)
    requires n <= |f| && m <= |g| && (n == |f| || m == |g|)
    requires var n', m' := n + Count(INF, |f| - n), m + Count(INF, |g| - m);
      Apply(f, out).at <= n' && SameLines(Replayed(f, out, n'), g[..m'], blanks)
    ensures SameLines(Replayed(f, out, |f|), g, blanks) <==> |f| - n <= INF + 1 && |g| - m <= INF + 1
  {
    hide Apply, Replayed;
    var n' := n + Count(INF, |f| - n);
    ReplayedOn(f, out, n');
    assert |Replayed(f, out, |f|)| == m + Count(INF, |g| - m) + |f| - n';
    assert g[..|g|] == g;
    assert n' == |f| ==> Replayed(f, out, n') + f[n'..] == Replayed(f, out, n');
  }

  /** After giving up, the lines that differ stand against each other. */
  lemma {:induction false} NotWhole(f: seq<string>, g: seq<string>, out: seq<Out>, n: nat, m: nat, blanks: bool)
    requires n < |f| && m < |g| && !SameLine(f, g, n + 1, m + 1, 0, blanks)
    requires Apply(f, out).at <= n && SameLines(Replayed(f, out, n), g[..m], blanks)
    ensures !SameLines(Replayed(f, out + [Change(n + 1, INF, m + 1, INF, 'c'), Omitted], |f|), g, blanks)
  {
    hide Apply;
    var o1 := out + [Change(n + 1, INF, m + 1, INF, 'c')];
    ApplyOne(f, out, Change(n + 1, INF, m + 1, INF, 'c'));
    ApplyOne(f, o1, Omitted);
    assert out + [Change(n + 1, INF, m + 1, INF, 'c'), Omitted] == o1 + [Omitted];
    var whole := Replayed(f, o1 + [Omitted], |f|);
    assert whole == Replayed(f, out, n) + f[n..];
    assert |Replayed(f, out, n)| == m && whole[m] == f[n];
    AlikeSelf(f[n], 0, blanks);
  }

  lemma {:induction false} NothingApplied(f: seq<string>, n: nat)
    requires n <= |f|
    ensures Apply(f, []) == Patch([], 0) && Replayed(f, [], n) == f[..n]
  {
  }

  // ---------------------------------------------------------------------------------------
  // The program

  class Differ {
    const w0: Window
    const w1: Window
    const blanks: bool
    var n0: nat
    var n1: nat
    var out: seq<Out>
    ghost var hunks: seq<Hunk>

    ghost predicate Valid()
      reads this, w0, w1, w0.text, w1.text
    {
      w0 != w1 && w0.text != w1.text && w0.Valid() && w1.Valid()
    }

    /** Everything up to lines n0 and n1 is settled, and forgotten. */
    ghost predicate Settled()
      reads this, w0, w1, w0.text, w1.text
    {
      && Valid() && w0.lineno == n0 + 1 && w1.lineno == n1 + 1
      && Replays(w0.file, w1.file, hunks, n0, n1, blanks) && out == Reports(hunks)
    }

    /** Lines n0 and n1 are looked at, and what is before them is settled. */
    ghost predicate Looking()
      reads this, w0, w1, w0.text, w1.text
    {
      && Valid() && n0 >= 1 && n1 >= 1 && w0.lineno == n0 && w1.lineno == n1
      && Replays(w0.file, w1.file, hunks, n0 - 1, n1 - 1, blanks) && out == Reports(hunks)
    }

    constructor (file0: seq<string>, file1: seq<string>, blanks: bool)
      ensures Settled() && n0 == 0 && n1 == 0 && w0.file == file0 && w1.file == file1 && this.blanks == blanks
      ensures fresh(w0) && fresh(w1) && fresh(w0.text) && fresh(w1.text) && out == [] && hunks == []
    {
      w0 := new Window(file0);
      w1 := new Window(file1);
      this.blanks := blanks;
      n0, n1, out, hunks := 0, 0, [], [];
    }

    /** Lines of file 0 from n0 on, up to a further ones. */
    method PrintGone(a: int) returns (i: nat)
      requires Valid() && w0.lineno == n0 >= 1 && n0 <= |w0.file| + 1
      modifies this`out, w0, w0.text
      ensures Valid() && i == Count(a, |w0.file| + 1 - n0) && w0.lineno == n0 + i
      ensures out == old(out) + Lesses(w0.file[n0 - 1..n0 - 1 + i])
    {
      hide Lesses, Greaters;
      LessesNone(w0.file, n0 - 1);
      i := 0;
      while i <= a
        invariant Valid() && i <= Count(a, |w0.file| + 1 - n0) && w0.lineno == n0 + i
        invariant out == old(out) + Lesses(w0.file[n0 - 1..n0 - 1 + i])
        decreases a - i
      {
        var s := w0.Getl(n0 + i);
        if s.None? {
          break;
        }
        out := out + [Less(s.value)];
        w0.Clrl(n0 + i);
        LessesMore(w0.file, n0 - 1, i);
        i := i + 1;
      }
    }

    method PrintCome(b: int) returns (i: nat)
      requires Valid() && w1.lineno == n1 >= 1 && n1 <= |w1.file| + 1
      modifies this`out, w1, w1.text
      ensures Valid() && i == Count(b, |w1.file| + 1 - n1) && w1.lineno == n1 + i
      ensures out == old(out) + Greaters(w1.file[n1 - 1..n1 - 1 + i])
    {
      hide Lesses, Greaters;
      LessesNone(w1.file, n1 - 1);
      i := 0;
      while i <= b
        invariant Valid() && i <= Count(b, |w1.file| + 1 - n1) && w1.lineno == n1 + i
        invariant out == old(out) + Greaters(w1.file[n1 - 1..n1 - 1 + i])
        decreases b - i
      {
        var s := w1.Getl(n1 + i);
        if s.None? {
          break;
        }
        out := out + [Greater(s.value)];
        w1.Clrl(n1 + i);
        LessesMore(w1.file, n1 - 1, i);
        i := i + 1;
      }
    }

    /** `change` */
    method PrintHeader(a: int, b: int)
      requires n0 >= 1 && n1 >= 1
      modifies this`out
      ensures forall h: Hunk :: h.start == n0 - 1 && h.at == n1 - 1 && h.a == a && h.b == b ==>
                out == old(out) + [Header(h)]
    {
      if a < 0 {
        out := out + [Change(n0 - 1, 0, n1, b, 'a')];
      } else if b < 0 {
        out := out + [Change(n0, a, n1 - 1, 0, 'd')];
      } else {
        out := out + [Change(n0, a, n1, b, 'c')];
      }
    }

    /** What `output` prints. */
    method PrintChange(a: int, b: int) returns (ghost h: Hunk)
      requires Valid() && w0.lineno == n0 >= 1 && n0 <= |w0.file| + 1 && w1.lineno == n1 >= 1 && n1 <= |w1.file| + 1
      modifies this`out, this`n0, this`n1, w0, w1, w0.text, w1.text
      ensures Valid() && h.start == old(n0) - 1 && h.at == old(n1) - 1 && FitsLast(w0.file, w1.file, h)
      ensures h.a == a && h.b == b && out == old(out) + Report(h)
      ensures n0 == h.start + |h.gone| && n1 == h.at + |h.come| && w0.lineno == n0 + 1 && w1.lineno == n1 + 1
    {
      hide Lesses, Greaters, Header, Count;
      ghost var n, m := n0 - 1, n1 - 1;
      PrintHeader(a, b);
      var i := PrintGone(a);
      n0 := n0 + i - 1;
      if a >= 0 && b >= 0 {
        out := out + [Dashes];
      }
      var j := PrintCome(b);
      n1 := n1 + j - 1;
      h := Hunk(n, m, a, b, w0.file[n..n + i], w1.file[m..m + j]);
    }

    /** `output` */
    method Output(a: int, b: int)
      requires Looking() && n0 <= |w0.file| + 1 && n1 <= |w1.file| + 1
      modifies this, w0, w1, w0.text, w1.text
      ensures Settled()
      ensures n0 == old(n0) - 1 + Count(a, |w0.file| + 1 - old(n0))
      ensures n1 == old(n1) - 1 + Count(b, |w1.file| + 1 - old(n1))
    {
      hide Replays, SameLines, Reports, Report;
      ghost var n, m, hs := n0 - 1, n1 - 1, hunks;
      ghost var h := PrintChange(a, b);
      ReplaysHunk(w0.file, w1.file, hs, n, m, h, blanks);
      ReportsMore(hs, h);
      hunks := hs + [h];
    }

    /** Compares stored lines p and q. */
    method Compare(p: nat, q: nat) returns (equal: bool)
      requires Valid() && w0.lineno <= p < w0.lineno + w0.ntext && w1.lineno <= q < w1.lineno + w1.ntext
      modifies w0`ntext, w0`pos, w0.text, w1`ntext, w1`pos, w1.text
      ensures Valid() && w0.ntext == old(w0.ntext) && w1.ntext == old(w1.ntext)
      ensures equal == SameLine(w0.file, w1.file, p, q, 0, blanks)
    {
      var s := w0.Getl(p);
      var t := w1.Getl(q);
      equal := Cmp(s.value, t.value, blanks);
    }

    /** Whether the C lines up to those i and k behind the current ones compare equal. */
    method Matches(i: nat, k: nat) returns (equal: bool)
      requires Valid() && C - 1 <= i && C - 1 <= k
      requires w0.lineno <= n0 && n0 + i < w0.lineno + w0.ntext && w1.lineno <= n1 && n1 + k < w1.lineno + w1.ntext
      modifies w0`ntext, w0`pos, w0.text, w1`ntext, w1`pos, w1.text
      ensures Valid() && w0.ntext == old(w0.ntext) && w1.ntext == old(w1.ntext)
      ensures equal == Synched(w0.file, w1.file, n0, i, n1, k, blanks)
    {
      hide SameLine;
      var m := 0;
      while m < C
        invariant 0 <= m <= C && Valid() && w0.ntext == old(w0.ntext) && w1.ntext == old(w1.ntext)
        invariant UpTo(w0.file, w1.file, n0 + i, n1 + k, m, blanks)
      {
        BackOne(w0.file, w1.file, n0 + i, n1 + k, m, blanks);
        var same := Compare(n0 + i - m, n1 + k - m);
        if !same {
          return false;
        }
        m := m + 1;
      }
      return true;
    }

    ghost predicate Kept(n: nat, m: nat, hs: seq<Hunk>)
      reads this, w0, w1, w0.text, w1.text
    {
      Looking() && n0 == n && n1 == m && hunks == hs
    }

    /** The change that `output` was called for has been printed. */
    ghost predicate Advanced(n: nat, m: nat, d: (int, int))
      reads this, w0, w1, w0.text, w1.text
    {
      && Settled() && 1 <= n <= |w0.file| + 1 && 1 <= m <= |w1.file| + 1
      && n0 == n - 1 + Count(d.0, |w0.file| + 1 - n) && n1 == m - 1 + Count(d.1, |w1.file| + 1 - m)
    }

    /** If the C lines up to line i and k behind the current ones compare equal, everything before them is a
        change. */
    method Try(i: nat, k: nat) returns (done: bool)
      requires Looking() && C - 1 <= i < w0.ntext && C - 1 <= k < w1.ntext
      modifies this, w0, w1, w0.text, w1.text
      ensures done == Synched(w0.file, w1.file, old(n0), i, old(n1), k, blanks)
      ensures if done then Advanced(old(n0), old(n1), (i - C, k - C))
              else Kept(old(n0), old(n1), old(hunks)) && w0.ntext == old(w0.ntext) && w1.ntext == old(w1.ntext)
    {
      hide Replays, Reports, SameLine, Synched;
      done := Matches(i, k);
      if done {
        Output(i - C, k - C);
      }
    }

    /** Line i behind the current one of file 0, against lines of file 1 that were read before. */
    method SynchGone(i: nat) returns (done: bool)
      requires Looking() && 1 <= i < w0.ntext && i <= w1.ntext
      modifies this, w0, w1, w0.text, w1.text
      ensures var r := TryGone(w0.file, w1.file, old(n0), old(n1), i, C - 1, blanks);
        && done == r.Some?
        && if done then Advanced(old(n0), old(n1), r.value)
           else Kept(old(n0), old(n1), old(hunks)) && w0.ntext == old(w0.ntext) && w1.ntext == old(w1.ntext)
    {
      hide Replays, Reports, SameLine, Synched;
      var k := C - 1;
      while k < i
        invariant TryGone(w0.file, w1.file, n0, n1, i, C - 1, blanks)
               == TryGone(w0.file, w1.file, n0, n1, i, k, blanks)
        invariant C - 1 <= k && Kept(old(n0), old(n1), old(hunks)) && w0.ntext == old(w0.ntext) &&
                  w1.ntext == old(w1.ntext)
      {
        done := Try(i, k);
        if done {
          return;
        }
        k := k + 1;
      }
      return false;
    }

    /** The other way round. Here the current lines themselves come up again; they differ. */
    method SynchCome(j: nat) returns (done: bool)
      requires Looking() && 1 <= j < w0.ntext && j < w1.ntext
      modifies this, w0, w1, w0.text, w1.text
      ensures var r := TryCome(w0.file, w1.file, old(n0), old(n1), j, C - 1, blanks);
        && done == r.Some?
        && if done then Advanced(old(n0), old(n1), r.value)
           else Kept(old(n0), old(n1), old(hunks)) && w0.ntext == old(w0.ntext) && w1.ntext == old(w1.ntext)
    {
      hide Replays, Reports, SameLine, Synched;
      var k := C - 1;
      while k <= j
        invariant TryCome(w0.file, w1.file, n0, n1, j, C - 1, blanks)
               == TryCome(w0.file, w1.file, n0, n1, j, k, blanks)
        invariant C - 1 <= k && Kept(old(n0), old(n1), old(hunks)) && w0.ntext == old(w0.ntext) &&
                  w1.ntext == old(w1.ntext)
      {
        done := Try(k, j);
        if done {
          return;
        }
        k := k + 1;
      }
      return false;
    }

    /** One round of `easysynch`: the i-th lines behind the current ones. */
    method SynchAt(i: nat) returns (done: bool)
      requires Looking() && 1 <= i < RANGE && i <= w0.ntext && i <= w1.ntext
      modifies this, w0, w1, w0.text, w1.text
      ensures var r := Search(w0.file, w1.file, old(n0), old(n1), i, blanks);
        if done then r.Some? && Advanced(old(n0), old(n1), r.value)
        else
          && Kept(old(n0), old(n1), old(hunks)) && i + 1 <= w0.ntext && i + 1 <= w1.ntext
          && r == Search(w0.file, w1.file, n0, n1, i + 1, blanks)
    {
      hide Replays, Reports, SameLine, Synched, TryGone, TryCome;
      var s0 := w0.Getl(n0 + i);
      if s0.None? {
        Output(INF, INF);
        return true;
      }
      done := SynchGone(i);
      if done {
        return;
      }
      var s1 := w1.Getl(n1 + i);
      if s1.None? {
        Output(INF, INF);
        return true;
      }
      done := SynchCome(i);
    }

    /** `easysynch` */
    method Easysynch() returns (done: bool)
      requires Looking() && w0.ntext >= 1 && w1.ntext >= 1
      modifies this, w0, w1, w0.text, w1.text
      ensures var r := Search(w0.file, w1.file, old(n0), old(n1), 1, blanks);
        && done == r.Some?
        && if done then Advanced(old(n0), old(n1), r.value) else Kept(old(n0), old(n1), old(hunks))
    {
      hide Replays, Reports, SameLine, Synched, TryGone, TryCome;
      var i := 1;
      while i < RANGE
        invariant 1 <= i <= RANGE && Kept(old(n0), old(n1), old(hunks)) && i <= w0.ntext && i <= w1.ntext
        invariant Search(w0.file, w1.file, n0, n1, 1, blanks) == Search(w0.file, w1.file, n0, n1, i, blanks)
      {
        done := SynchAt(i);
        if done {
          return;
        }
        i := i + 1;
      }
      return false;
    }

    /** The loop of `main`, up to lines n and m, which is the end of a file, or where the files drift apart too far and
        it fails. What is left of the other file is put out, but no more than INF + 1 lines of it. What has been
        printed, replayed on the first file, gives the second as far as that. */
    method Run() returns (ok: bool, ghost n: nat, ghost m: nat)
      requires Settled() && n0 == 0 && n1 == 0
      modifies this, w0, w1, w0.text, w1.text
      ensures n <= |w0.file| && m <= |w1.file| && Settle(w0.file, w1.file, 0, 0, blanks) == Place(n, m, ok)
      ensures ok ==> n == |w0.file| || m == |w1.file|
      ensures ok ==>
                var n', m' := n + Count(INF, |w0.file| - n), m + Count(INF, |w1.file| - m);
                && Replays(w0.file, w1.file, hunks, n', m', blanks) && out == Reports(hunks)
                && SameLines(Replayed(w0.file, out, n'), w1.file[..m'], blanks)
      ensures !ok ==>
                && Replays(w0.file, w1.file, hunks, n, m, blanks) && Apart(w0.file, w1.file, n + 1, m + 1, blanks)
                && !SameLine(w0.file, w1.file, n + 1, m + 1, 0, blanks)
                && out == Reports(hunks) + [Change(n + 1, INF, m + 1, INF, 'c'), Omitted]
      ensures SameLines(Replayed(w0.file, out, |w0.file|), w1.file, blanks)
         <==> ok && |w0.file| - n <= INF + 1 && |w1.file| - m <= INF + 1
    {
      hide Replays, Reports, SameLine, SameLines, Synched, Replayed, Apart, Settle;
      var end0, end1;
      ok, end0, end1 := MatchUp();
      n, m := n0 - 1, n1 - 1;
      if !ok {
        Replay(n, m);
        NotWhole(w0.file, w1.file, out, n, m, blanks);
        out := out + [Change(n0, INF, n1, INF, 'c'), Omitted];
        return;
      }
      if end0 && end1 {
        n0, n1 := n0 - 1, n1 - 1;
      } else if end0 {
        Output(-1, INF);
      } else {
        Output(INF, -1);
      }
      Replay(n0, n1);
      WholeWhen(w0.file, w1.file, out, n, m, blanks);
    }

    /** The loop itself: up to the end of a file, or to lines that do not match up. */
    method MatchUp() returns (ok: bool, end0: bool, end1: bool)
      requires Settled() && n0 == 0 && n1 == 0
      modifies this, w0, w1, w0.text, w1.text
      ensures Looking() && n0 <= |w0.file| + 1 && n1 <= |w1.file| + 1
      ensures ok ==> (end0 || end1) && (end0 <==> n0 == |w0.file| + 1) && (end1 <==> n1 == |w1.file| + 1)
      ensures !ok ==>
                && Apart(w0.file, w1.file, n0, n1, blanks) && !SameLine(w0.file, w1.file, n0, n1, 0, blanks)
                && n0 <= |w0.file| && n1 <= |w1.file|
      ensures Settle(w0.file, w1.file, 0, 0, blanks) == Place(n0 - 1, n1 - 1, ok)
    {
      hide Replays, Reports, SameLine, Synched, Apart, Search, Settle;
      while true
        invariant Settled() && n0 <= |w0.file| && n1 <= |w1.file|
        invariant Settle(w0.file, w1.file, 0, 0, blanks) == Settle(w0.file, w1.file, n0, n1, blanks)
        decreases |w0.file| - n0 + |w1.file| - n1
      {
        SettleOn(w0.file, w1.file, n0, n1, blanks);
        n0, n1 := n0 + 1, n1 + 1;
        var s0 := w0.Getl(n0);
        var s1 := w1.Getl(n1);
        if s0.None? || s1.None? {
          return true, s0.None?, s1.None?;
        }
        var done := Turn();
        if !done {
          return false, false, false;
        }
      }
    }

    /** A turn of the loop at two lines there are. */
    method Turn() returns (done: bool)
      requires Looking() && w0.ntext >= 1 && w1.ntext >= 1 && n0 <= |w0.file| && n1 <= |w1.file|
      modifies this, w0, w1, w0.text, w1.text
      ensures n0 <= |w0.file| && n1 <= |w1.file|
      ensures done ==>
                && Settled() && n0 + n1 > old(n0) - 1 + old(n1) - 1
                && Settle(w0.file, w1.file, old(n0) - 1, old(n1) - 1, blanks)
                   == Settle(w0.file, w1.file, n0, n1, blanks)
      ensures !done ==>
                && Looking() && n0 == old(n0) && n1 == old(n1)
                && Apart(w0.file, w1.file, n0, n1, blanks) && !SameLine(w0.file, w1.file, n0, n1, 0, blanks)
                && Settle(w0.file, w1.file, n0 - 1, n1 - 1, blanks) == Place(n0 - 1, n1 - 1, false)
    {
      hide Replays, Reports, SameLine, Synched, Apart, Search, Settle;
      SettleOn(w0.file, w1.file, n0 - 1, n1 - 1, blanks);
      done := Compare(n0, n1);
      if done {
        Forget();
      } else {
        done := Easysynch();
      }
    }

    /** What has been printed gives the second file, up to the lines that are settled. */
    lemma {:induction false} Replay(n: nat, m: nat)
      requires Valid() && Replays(w0.file, w1.file, hunks, n, m, blanks) && out == Reports(hunks)
      ensures n <= |w0.file| && m <= |w1.file| && Apply(w0.file, out).at <= n
      ensures SameLines(Replayed(w0.file, out, n), w1.file[..m], blanks)
    {
      hide SameLines, Replayed, Reports, Patched, Apply;
      ReplayedIs(w0.file, w1.file, hunks, n, m);
    }

    /** Lines that compare equal are forgotten. */
    method Forget()
      requires Looking() && w0.ntext >= 1 && w1.ntext >= 1 && SameLine(w0.file, w1.file, n0, n1, 0, blanks)
      modifies w0, w1, w0.text, w1.text
      ensures Settled()
    {
      hide Replays, Reports;
      ReplaysLine(w0.file, w1.file, hunks, n0 - 1, n1 - 1, blanks);
      w0.Clrl(n0);
      w1.Clrl(n1);
    }
  }

  /** Lines p and q, or those m before them, compare equal. */
  predicate SameLine(f: seq<string>, g: seq<string>, p: nat, q: nat, m: nat, blanks: bool) {
    m < p <= |f| && m < q <= |g| && Alike(f[p - 1 - m], g[q - 1 - m], 0, 0, blanks)
  }

  predicate UpTo(f: seq<string>, g: seq<string>, p: nat, q: nat, count: nat, blanks: bool) {
    forall m: nat :: m < count ==> SameLine(f, g, p, q, m, blanks)
  }

  /** The C lines up to those a behind p and b behind q compare equal. */
  predicate Synched(f: seq<string>, g: seq<string>, p: nat, a: nat, q: nat, b: nat, blanks: bool) {
    UpTo(f, g, p + a, q + b, C, blanks)
  }

  /** Both files go on for a whole window, in which no C lines of one compare equal with any C of the other. */
  predicate Apart(f: seq<string>, g: seq<string>, p: nat, q: nat, blanks: bool) {
    && p + RANGE - 1 <= |f| && q + RANGE - 1 <= |g|
    && forall a: nat, b: nat :: C - 1 <= a < RANGE && C - 1 <= b < RANGE ==> !Synched(f, g, p, a, q, b, blanks)
  }

  // ---------------------------------------------------------------------------------------
  // Where the search leads

  /** What `output` is called with: for line i behind p, the first line from k on, before the i-th behind q, that it
      compares equal with. */
  function TryGone(f: seq<string>, g: seq<string>, p: nat, q: nat, i: nat, k: nat, blanks: bool)
    : (r: Option<(int, int)>)
    requires C - 1 <= k
    ensures r.Some? ==>
              exists b: nat :: C - 1 <= b < i && Synched(f, g, p, i, q, b, blanks) && r.value == (i - C, b - C)
    ensures r.None? ==> forall b: nat :: k <= b < i ==> !Synched(f, g, p, i, q, b, blanks)
    decreases i - k
  {
    if k >= i then None
    else if Synched(f, g, p, i, q, k, blanks) then Some((i - C, k - C))
    else TryGone(f, g, p, q, i, k + 1, blanks)
  }

  /** The other way round, up to the j-th behind p. */
  function TryCome(f: seq<string>, g: seq<string>, p: nat, q: nat, j: nat, k: nat, blanks: bool)
    : (r: Option<(int, int)>)
    requires C - 1 <= k
    ensures r.Some? ==>
              exists a: nat :: C - 1 <= a <= j && Synched(f, g, p, a, q, j, blanks) && r.value == (a - C, j - C)
    ensures r.None? ==> forall a: nat :: k <= a <= j ==> !Synched(f, g, p, a, q, j, blanks)
    decreases j + 1 - k
  {
    if k > j then None
    else if Synched(f, g, p, k, q, j, blanks) then Some((k - C, j - C))
    else TryCome(f, g, p, q, j, k + 1, blanks)
  }

  /** Lines are tried further and further away, up to the end of a file, or of the window. */
  function Search(f: seq<string>, g: seq<string>, p: nat, q: nat, i: nat, blanks: bool): Option<(int, int)>
    decreases RANGE - i
  {
    if i >= RANGE then None
    else if p + i > |f| then Some((INF, INF))
    else
      var r := TryGone(f, g, p, q, i, C - 1, blanks);
      if r.Some? then r
      else if q + i > |g| then Some((INF, INF))
      else
        var s := TryCome(f, g, p, q, i, C - 1, blanks);
        if s.Some? then s else Search(f, g, p, q, i + 1, blanks)
  }

  /** Nothing is found exactly if no lines match anywhere in the window. */
  lemma {:induction false} SearchNone(f: seq<string>, g: seq<string>, p: nat, q: nat, i: nat, blanks: bool)
    requires 1 <= i < RANGE && Search(f, g, p, q, i, blanks).None?
    ensures p + RANGE - 1 <= |f| && q + RANGE - 1 <= |g|
    ensures forall a: nat, b: nat :: C - 1 <= a < RANGE && C - 1 <= b < RANGE && (i <= a || i <= b) ==>
              !Synched(f, g, p, a, q, b, blanks)
    decreases RANGE - i
  {
    hide Synched;
    if i + 1 < RANGE {
      SearchNone(f, g, p, q, i + 1, blanks);
    }
  }

  lemma {:induction false} NothingMatches(f: seq<string>, g: seq<string>, p: nat, q: nat, blanks: bool)
    requires Search(f, g, p, q, 1, blanks).None?
    ensures Apart(f, g, p, q, blanks)
  {
    hide Synched;
    SearchNone(f, g, p, q, 1, blanks);
  }

  /** A change that is found takes at least one line. */
  lemma {:induction false} SearchMoves(f: seq<string>, g: seq<string>, p: nat, q: nat, i: nat, blanks: bool)
    requires 1 <= p <= |f| && 1 <= q <= |g| && !SameLine(f, g, p, q, 0, blanks) && Search(f, g, p, q, i, blanks).Some?
    ensures var (a, b) := Search(f, g, p, q, i, blanks).value;
      Count(a, |f| + 1 - p) + Count(b, |g| + 1 - q) > 0
    decreases RANGE - i
  {
    hide SameLine;
    if TryGone(f, g, p, q, i, C - 1, blanks).None? && TryCome(f, g, p, q, i, C - 1, blanks).None? &&
       p + i <= |f| && q + i <= |g| {
      SearchMoves(f, g, p, q, i + 1, blanks);
    } else if Synched(f, g, p, C - 1, q, C - 1, blanks) {
      assert SameLine(f, g, p + (C - 1), q + (C - 1), 2, blanks);
      BackOne(f, g, p + (C - 1), q + (C - 1), 2, blanks);
    }
  }

  /** Where the run comes to: how many lines of each file are settled when one of them ends, or when nothing matches
      in the window. */
  datatype Place = Place(n: nat, m: nat, ok: bool)

  function Settle(f: seq<string>, g: seq<string>, n: nat, m: nat, blanks: bool): Place
    requires n <= |f| && m <= |g|
    decreases |f| - n + |g| - m
  {
    hide SameLine, Search;
    if n == |f| || m == |g| then Place(n, m, true)
    else if SameLine(f, g, n + 1, m + 1, 0, blanks) then Settle(f, g, n + 1, m + 1, blanks)
    else match Search(f, g, n + 1, m + 1, 1, blanks)
      case None => Place(n, m, false)
      case Some((a, b)) =>
        SearchMoves(f, g, n + 1, m + 1, 1, blanks);
        Settle(f, g, n + Count(a, |f| - n), m + Count(b, |g| - m), blanks)
  }

  /** One turn of the loop. */
  lemma {:induction false} SettleOn(f: seq<string>, g: seq<string>, n: nat, m: nat, blanks: bool)
    requires n <= |f| && m <= |g|
    ensures n == |f| || m == |g| ==> Settle(f, g, n, m, blanks) == Place(n, m, true)
    ensures n < |f| && m < |g| && SameLine(f, g, n + 1, m + 1, 0, blanks) ==>
              Settle(f, g, n, m, blanks) == Settle(f, g, n + 1, m + 1, blanks)
    ensures n < |f| && m < |g| && !SameLine(f, g, n + 1, m + 1, 0, blanks) ==>
              match Search(f, g, n + 1, m + 1, 1, blanks)
              case None => Settle(f, g, n, m, blanks) == Place(n, m, false) && Apart(f, g, n + 1, m + 1, blanks)
              case Some((a, b)) =>
                var n', m' := n + Count(a, |f| - n), m + Count(b, |g| - m);
                n' + m' > n + m && Settle(f, g, n, m, blanks) == Settle(f, g, n', m', blanks)
  {
    hide SameLine, Search, Apart;
    if n < |f| && m < |g| && !SameLine(f, g, n + 1, m + 1, 0, blanks) {
      if Search(f, g, n + 1, m + 1, 1, blanks).None? {
        NothingMatches(f, g, n + 1, m + 1, blanks);
      } else {
        SearchMoves(f, g, n + 1, m + 1, 1, blanks);
      }
    }
  }

  lemma {:induction false} BackOne(f: seq<string>, g: seq<string>, p: nat, q: nat, m: nat, blanks: bool)
    requires m < p && m < q && (SameLine(f, g, p, q, m, blanks) || (p <= |f| && q <= |g|))
    ensures SameLine(f, g, p - m, q - m, 0, blanks) == SameLine(f, g, p, q, m, blanks)
  {
  }

  lemma {:induction false} ReportsMore(hs: seq<Hunk>, h: Hunk)
    ensures Reports(hs + [h]) == Reports(hs) + Report(h)
  {
    assert (hs + [h])[..|hs|] == hs;
  }

  /** An empty file, and one a line longer than INF + 1: the last line is not put out. */
  method CutOff(g: seq<string>, blanks: bool) returns (out: seq<Out>)
    requires |g| == INF + 2
    ensures |Replayed([], out, 0)| == INF + 1 && SameLines(Replayed([], out, 0), g[..INF + 1], blanks)
  {
    hide Replayed, Apply, Reports;
    var d := new Differ([], g, blanks);
    var ok, n, m := d.Run();
    out := d.out;
  }
}
