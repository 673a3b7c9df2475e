/** Which codes a compressor sends: each stands for as much of the text as the string table allows (the main loop of
    compress.c). */
module Longest {

  import opened Basics
  import opened BitStream
  import opened Lzw
  import opened CodeStream

  /** The table has no code for what a code stands for, followed by this character. The pair of code 0 and character
      0 may be in the table and not be found. */
  predicate NoLonger(cfg: Config, tab: seq<Entry>, code: nat, c: byte) {
    (code == 0 && c == 0) || forall x: nat :: 256 <= x < |tab| && Usable(cfg, tab, x) ==> tab[x] != Entry(code, c)
  }

  /** One code, which takes the decoder from d to d'. What follows in the text does not go on from it in the table;
      and the table is cleared only when it is full. */
  predicate Chosen(cfg: Config, d: Decoder, d': Decoder, code: nat, text: seq<byte>) {
    if d'.mode.AfterClear? then |d.tab| >= Pow2(cfg.maxbits)
    else |d'.out| < |text| ==> NoLonger(cfg, d'.tab, code, text[|d'.out|])
  }

  /** Every code is chosen so. */
  ghost predicate Greedy(cfg: Config, codes: seq<nat>, text: seq<byte>)
    requires cfg.Valid() && After(cfg, codes).Some?
  {
    codes != [] ==>
      var front := codes[..|codes| - 1];
      AfterPrefix(cfg, codes, |front|);
      && Greedy(cfg, front, text)
      && Chosen(cfg, After(cfg, front).value.d, After(cfg, codes).value.d, codes[|front|], text)
  }

  lemma {:induction false} GreedyAt(cfg: Config, codes: seq<nat>, text: seq<byte>, k: nat)
    requires cfg.Valid() && After(cfg, codes).Some? && Greedy(cfg, codes, text) && k < |codes|
    ensures Chosen(cfg, SlotAt(cfg, codes, k).d, SlotAt(cfg, codes, k + 1).d, codes[k], text)
  {
    hide Chosen, After;
    var front := codes[..|codes| - 1];
    AfterPrefix(cfg, codes, |front|);
    if k == |front| {
      assert codes[..k + 1] == codes;
    } else {
      GreedyAt(cfg, front, text, k);
      assert front[..k] == codes[..k] && front[..k + 1] == codes[..k + 1];
    }
  }

  lemma {:induction false} GreedyNone(cfg: Config, text: seq<byte>)
    requires cfg.Valid()
    ensures After(cfg, []).Some? && Greedy(cfg, [], text)
  {
  }

  /** One more code. */
  lemma {:induction false} GreedyNext(cfg: Config, codes: seq<nat>, code: nat, text: seq<byte>)
    requires cfg.Valid() && After(cfg, codes).Some? && NextSlot(cfg, After(cfg, codes).value, code).Some?
    requires Greedy(cfg, codes, text)
    requires var s := After(cfg, codes).value; Chosen(cfg, s.d, NextSlot(cfg, s, code).value.d, code, text)
    ensures After(cfg, codes + [code]) == NextSlot(cfg, After(cfg, codes).value, code)
    ensures Greedy(cfg, codes + [code], text)
  {
    hide Chosen, NextSlot;
    assert (codes + [code])[..|codes|] == codes;
  }

  /** What a code stands for is added to the text; clearing adds nothing. */
  lemma {:induction false} StepOut(cfg: Config, d: Decoder, code: nat)
    requires DecoderOk(cfg, d) && Step(cfg, d, code).Some?
    ensures var d' := Step(cfg, d, code).value;
      if d'.mode.AfterClear? then d'.out == d.out else d.out < d'.out
  {
    StepKeeps(cfg, d, code);
  }

  /** More of the text, when what there is goes beyond what has been sent. */
  lemma {:induction false} GreedyLonger(cfg: Config, codes: seq<nat>, text: seq<byte>, more: seq<byte>)
    requires cfg.Valid() && After(cfg, codes).Some? && Greedy(cfg, codes, text) && text <= more
    requires |After(cfg, codes).value.d.out| < |text|
    ensures Greedy(cfg, codes, more)
  {
    hide NoLonger, DecoderOk, Step;
    if codes != [] {
      var front := codes[..|codes| - 1];
      AfterPrefix(cfg, codes, |front|);
      StepOut(cfg, After(cfg, front).value.d, codes[|front|]);
      GreedyLonger(cfg, front, text, more);
    }
  }

  /** The next character, which does not go on from the last code. */
  lemma {:induction false} GreedyOn(cfg: Config, codes: seq<nat>, text: seq<byte>, c: byte)
    requires cfg.Valid() && After(cfg, codes).Some? && Greedy(cfg, codes, text) && codes != []
    requires var d := After(cfg, codes).value.d;
      d.out == text && d.mode.Running? && NoLonger(cfg, d.tab, codes[|codes| - 1], c)
    ensures Greedy(cfg, codes, text + [c])
  {
    hide NoLonger, DecoderOk, Step;
    var front := codes[..|codes| - 1];
    AfterPrefix(cfg, codes, |front|);
    StepOut(cfg, After(cfg, front).value.d, codes[|front|]);
    GreedyLonger(cfg, front, text, text + [c]);
  }

  // ---------------------------------------------------------------------------------------
  // The longest match

  /** No two entries say the same. */
  ghost predicate Unique(cfg: Config, tab: seq<Entry>) {
    forall x: nat, y: nat :: 256 <= x < |tab| && Usable(cfg, tab, x) && 256 <= y < |tab| && Usable(cfg, tab, y) ==>
      tab[x] == tab[y] ==> x == y
  }

  /** Nowhere do two zero bytes follow each other. */
  ghost predicate NoZeros(text: seq<byte>) {
    forall i: nat :: 0 < i < |text| ==> !(text[i - 1] == 0 && text[i] == 0)
  }

  lemma {:induction false} StrUnique(cfg: Config, tab: seq<Entry>, x: nat, y: nat)
    requires TableOk(cfg, tab) && Unique(cfg, tab) && Usable(cfg, tab, x) && Usable(cfg, tab, y)
    requires Str(cfg, tab, x) == Str(cfg, tab, y)
    ensures x == y
    decreases x
  {
    if x >= 256 && y >= 256 {
      var s, t := Str(cfg, tab, tab[x].prefix), Str(cfg, tab, tab[y].prefix);
      assert s == (s + [tab[x].suffix])[..|s|] && t == (t + [tab[y].suffix])[..|t|];
      StrUnique(cfg, tab, tab[x].prefix, tab[y].prefix);
    }
  }

  /** If no entry goes on from a code with the next character, no string that the text has here is longer. */
  lemma {:induction false} NoneBeyond(cfg: Config, tab: seq<Entry>, code: nat, x: nat, rest: seq<byte>)
    requires TableOk(cfg, tab) && Unique(cfg, tab) && Usable(cfg, tab, code) && Usable(cfg, tab, x)
    requires Str(cfg, tab, code) <= rest && Str(cfg, tab, x) <= rest
    requires var n := |Str(cfg, tab, code)|;
      n < |rest| ==> forall y: nat :: 256 <= y < |tab| && Usable(cfg, tab, y) ==> tab[y] != Entry(code, rest[n])
    ensures |Str(cfg, tab, x)| <= |Str(cfg, tab, code)|
    decreases x
  {
    if x >= 256 {
      var s, p := Str(cfg, tab, code), tab[x].prefix;
      NoneBeyond(cfg, tab, code, p, rest);
      if |Str(cfg, tab, p)| == |s| {
        assert Str(cfg, tab, p) == rest[..|s|] == s;
        StrUnique(cfg, tab, p, code);
      }
    }
  }

  /** The pair that will be entered next is not there yet. */
  lemma {:induction false} NewPair(cfg: Config, codes: seq<nat>, text: seq<byte>)
    requires cfg.Valid() && After(cfg, codes).Some? && Greedy(cfg, codes, text) && NoZeros(text)
    requires var d := After(cfg, codes).value.d; d.mode.Running? && d.out < text
    ensures var d := After(cfg, codes).value.d;
      forall y: nat :: 256 <= y < |d.tab| && Usable(cfg, d.tab, y) ==> d.tab[y] != Entry(d.oldcode, text[|d.out|])
  {
    hide DecoderOk, Unique;
    var front := codes[..|codes| - 1];
    AfterPrefix(cfg, codes, |front|);
    hide NextSlot, After;
    StepKeeps(cfg, After(cfg, front).value.d, codes[|front|]);
    var d := After(cfg, codes).value.d;
    if d.oldcode == 0 {
      assert d.out[|d.out| - 1] == 0;
    }
  }

  /** One code more. */
  lemma {:induction false} GrowsUnique(cfg: Config, d: Decoder, code: nat, text: seq<byte>)
    requires DecoderOk(cfg, d) && Unique(cfg, d.tab) && Step(cfg, d, code).Some? && d.out <= text
    requires Step(cfg, d, code).value.out <= text
    requires d.mode.Running? && d.out < text ==> forall y: nat :: 256 <= y < |d.tab| && Usable(cfg, d.tab, y) ==>
               d.tab[y] != Entry(d.oldcode, text[|d.out|])
    ensures Unique(cfg, Step(cfg, d, code).value.tab)
  {
    var d' := Step(cfg, d, code).value;
    if d'.mode.Running? && d.mode.Running? {
      assert d'.finchar == d'.out[|d.out|] == text[|d.out|];
    }
  }

  /** Of the table of a greedy run no two entries say the same, if nowhere in the text zero follows zero. */
  lemma {:induction false} TableUnique(cfg: Config, codes: seq<nat>, text: seq<byte>)
    requires cfg.Valid() && After(cfg, codes).Some? && Greedy(cfg, codes, text) && NoZeros(text)
    requires After(cfg, codes).value.d.out <= text
    ensures Unique(cfg, After(cfg, codes).value.d.tab)
  {
    if codes != [] {
      var front, code := codes[..|codes| - 1], codes[|codes| - 1];
      AfterPrefix(cfg, codes, |front|);
      var d := After(cfg, front).value.d;
      StepOut(cfg, d, code);
      TableUnique(cfg, front, text);
      if d.mode.Running? && d.out < text {
        NewPair(cfg, front, text);
      }
      GrowsUnique(cfg, d, code, text);
    }
  }

  lemma {:induction false} LastIsLongest(cfg: Config, codes: seq<nat>, text: seq<byte>, d: Decoder, x: nat)
    requires cfg.Valid() && After(cfg, codes).Some? && codes != [] && Greedy(cfg, codes, text) && NoZeros(text)
    requires DecoderOk(cfg, d) && Step(cfg, d, codes[|codes| - 1]) == Some(After(cfg, codes).value.d)
    requires var d' := After(cfg, codes).value.d;
      d'.mode.Running? && d'.out <= text && Usable(cfg, d'.tab, x) && |d.out| <= |text|
      && Str(cfg, d'.tab, x) <= text[|d.out|..]
    ensures var d', code := After(cfg, codes).value.d, codes[|codes| - 1];
      Usable(cfg, d'.tab, code) && |Str(cfg, d'.tab, x)| <= |Str(cfg, d'.tab, code)|
  {
    hide After, NextSlot, Greedy, Unique, NoZeros;
    var d', code, rest := After(cfg, codes).value.d, codes[|codes| - 1], text[|d.out|..];
    StepKeeps(cfg, d, code);
    hide DecoderOk, TableOk, Step;
    var s := Str(cfg, d'.tab, code);
    assert d'.out[|d.out|..] == s;
    assert s <= rest;
    if |s| < |rest| {
      assert rest[|s|] == text[|d'.out|];
      NewPair(cfg, codes, text);
    }
    TableUnique(cfg, codes, text);
    NoneBeyond(cfg, d'.tab, code, x, rest);
  }

  lemma {:induction false} GreedyPrefix(cfg: Config, codes: seq<nat>, text: seq<byte>, k: nat)
    requires cfg.Valid() && After(cfg, codes).Some? && Greedy(cfg, codes, text) && k <= |codes|
    ensures After(cfg, codes[..k]).Some? && Greedy(cfg, codes[..k], text)
    ensures After(cfg, codes[..k]).value.d.out <= After(cfg, codes).value.d.out
  {
    hide Chosen, After, NextSlot;
    if k == |codes| {
      assert codes[..k] == codes;
    } else {
      var front := codes[..|codes| - 1];
      AfterNext(cfg, codes, |front|);
      assert codes[..|front| + 1] == codes;
      StepOut(cfg, After(cfg, front).value.d, codes[|front|]);
      GreedyPrefix(cfg, front, text, k);
      assert front[..k] == codes[..k];
    }
  }

  /** Every code that is not CLEAR stands for the longest string of the table that the text has where it is sent. */
  lemma {:induction false} LongestMatch(cfg: Config, codes: seq<nat>, text: seq<byte>, k: nat, x: nat)
    requires cfg.Valid() && After(cfg, codes).Some? && Greedy(cfg, codes, text) && NoZeros(text) && k < |codes|
    requires After(cfg, codes).value.d.out == text
    requires var d, d' := SlotAt(cfg, codes, k).d, SlotAt(cfg, codes, k + 1).d;
      d'.mode.Running? && Usable(cfg, d'.tab, x) && |d.out| <= |text| && Str(cfg, d'.tab, x) <= text[|d.out|..]
    ensures var d' := SlotAt(cfg, codes, k + 1).d;
      Usable(cfg, d'.tab, codes[k]) && |Str(cfg, d'.tab, x)| <= |Str(cfg, d'.tab, codes[k])|
  {
    hide After, NextSlot, Greedy, Unique, NoZeros, DecoderOk, TableOk, Step, Str;
    AfterNext(cfg, codes, k);
    GreedyPrefix(cfg, codes, text, k + 1);
    LastIsLongest(cfg, codes[..k + 1], text, SlotAt(cfg, codes, k).d, x);
  }
}
