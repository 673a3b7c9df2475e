/** Where the linker puts modules and symbols in memory, from the sizes in the files alone (`load1` and `middle` of
    ld86.c). */
module Placement {

  import opened Basics
  import opened Symbols
  import opened Layout

  /** A size, filled up to a multiple of four. */
  function Padded(x: int): (p: int)
    ensures p % 4 == 0 && x <= p < x + 4
  {
    x + (4 - x % 4) % 4
  }

  /** What a module takes of a segment. */
  function Length(m: Module, k: Kind): int {
    match k
    case Text => m.text
    case Data => Padded(m.data)
    case _ => Padded(m.bss)
  }

  /** Where a segment begins in the addresses of the file. */
  function InFile(m: Module, k: Kind): int {
    match k
    case Text => 0
    case Data => m.textEnd
    case _ => m.textEnd + m.data
  }

  /** What the loaded ones of the first n modules take of a segment. */
  function Taken(looks: seq<Look>, kept: seq<bool>, k: Kind, n: nat): int
    requires n <= |looks| && n <= |kept|
  {
    if n == 0 then 0 else Taken(looks, kept, k, n - 1) + if kept[n - 1] then Length(looks[n - 1].m, k) else 0
  }

  /** Where the segment begins. */
  function Start(base: Origins, k: Kind): int {
    match k
    case Text => base.text
    case Data => base.data
    case _ => base.bss
  }

  /** Where module j's part of it begins. */
  function PartOf(looks: seq<Look>, kept: seq<bool>, base: Origins, k: Kind, j: nat): int
    requires j <= |looks| && j <= |kept|
  {
    Start(base, k) + Taken(looks, kept, k, j)
  }

  /** The text begins where asked for; the data at the first multiple behind it, and hsize further; bss behind the
      data and the room for common symbols. */
  predicate Segmented(looks: seq<Look>, kept: seq<bool>, base: Origins, textbase: int, align: nat, hsize: int,
                      allot: bool)
    requires |kept| == |looks| && align > 0
  {
    var end := textbase + Taken(looks, kept, Text, |looks|);
    && base.text == textbase && (base.data - hsize) % align == 0 && end <= base.data - hsize < end + align
    && PartOf(looks, kept, base, Data, |looks|) <= base.bss
    && (!allot ==> PartOf(looks, kept, base, Data, |looks|) == base.bss)
  }

  /** Two loaded modules, one behind the other, have parts of a segment that lie so, too. */
  lemma {:induction false} PartsApart(looks: seq<Look>, kept: seq<bool>, base: Origins, k: Kind, i: nat, j: nat)
    requires i < j <= |looks| == |kept| && kept[i]
    ensures Start(base, k) <= PartOf(looks, kept, base, k, i)
    ensures PartOf(looks, kept, base, k, i) + Length(looks[i].m, k) <= PartOf(looks, kept, base, k, j)
  {
    if i + 1 < j {
      PartsApart(looks, kept, base, k, i, j - 1);
    } else {
      TakenNat(looks, kept, k, i);
    }
  }

  lemma {:induction false} TakenNat(looks: seq<Look>, kept: seq<bool>, k: Kind, n: nat)
    requires n <= |looks| && n <= |kept|
    ensures Taken(looks, kept, k, n) >= 0
  {
    if n > 0 {
      TakenNat(looks, kept, k, n - 1);
    }
  }

  lemma {:induction false} RoundIsPadded(x: int)
    ensures Round4(x) == Padded(x)
  {
    RoundedBy(x, 4);
  }

  /** The sizes that pass 1 adds up. */
  lemma {:induction false} SizesTaken(looks: seq<Look>, kept: seq<bool>, n: nat)
    requires n <= |looks| && n <= |kept|
    ensures Sizes(looks, kept, n)
      == Origins(Taken(looks, kept, Text, n), Taken(looks, kept, Data, n), Taken(looks, kept, Bss, n))
  {
    hide RoundUp, Padded;
    if n > 0 {
      SizesTaken(looks, kept, n - 1);
      RoundIsPadded(looks[n - 1].m.data);
      RoundIsPadded(looks[n - 1].m.bss);
    }
  }

  // ---------------------------------------------------------------------------------------
  // What becomes of a name

  /** Symbol i of module j is the first definition of the name that is not passed over. */
  ghost predicate Decides(looks: seq<Look>, kept: seq<bool>, name: string, j: nat, i: nat)
    requires |kept| == |looks|
  {
    && Defines(looks, kept, name, j, i) && !PassedOver(looks, kept, name, j, i)
    && forall c: nat, d: nat :: Earlier(c, d, j, i) && Defines(looks, kept, name, c, d) ==>
         PassedOver(looks, kept, name, c, d)
  }

  /** It has the address that lies as far behind the start of the module's part of the segment as the symbol does in
      the file. Absolute symbols stay as they are. */
  predicate Moved(looks: seq<Look>, kept: seq<bool>, base: Origins, j: nat, s: Sym, v: Sym)
    requires j < |looks| == |kept|
  {
    if s.kind == Text || s.kind == Data || s.kind == Bss then
      v.kind == s.kind && v.value - PartOf(looks, kept, base, s.kind, j) == s.value - InFile(looks[j].m, s.kind)
    else v == Sym(Abs, s.value)
  }

  /** No definition counts, and this is the largest size asked for. */
  ghost predicate Common(looks: seq<Look>, kept: seq<bool>, name: string, size: int)
    requires |kept| == |looks|
  {
    LeftCommon(looks, kept, name) && size > 0 && Sized(looks, kept, name, size, |looks|, 0)
  }

  /** Some loaded module mentions the name, but nobody asks for room or defines it. */
  ghost predicate Unknown(looks: seq<Look>, kept: seq<bool>, name: string)
    requires |kept| == |looks|
  {
    && (exists c: nat, d: nat :: Mentions(looks, name, c, d) && kept[c])
    && forall c: nat, d: nat :: !Defines(looks, kept, name, c, d) && !Asks(looks, kept, name, c, d)
  }

  /** No loaded module mentions the name. */
  ghost predicate Nowhere(looks: seq<Look>, kept: seq<bool>, name: string)
    requires |kept| == |looks|
  {
    forall c: nat, d: nat :: Mentions(looks, name, c, d) ==> !kept[c]
  }

  /** After pass 1 the table has the deciding definition's place. */
  lemma {:induction false} DecidesIs(looks: seq<Look>, kept: seq<bool>, l: seq<Entry>, name: string, j: nat, i: nat)
    requires Run(looks, |looks|) == Going(State(l, kept)) && (forall k :: 0 <= k < |looks| ==> Good(looks[k].m))
    requires |kept| == |looks| && Decides(looks, kept, name, j, i)
    ensures Value(l, name) == Some(Place1(looks, kept, j, i))
  {
    hide Run, PassedOver, Place1, Value, Sized;
    TraceAll(looks, kept, |looks|, name);
    assert Earlier(j, i, |looks|, 0);
    var s := Value(l, name).value;
    if s.kind != Undf {
      var c: nat, d: nat :| Earlier(c, d, |looks|, 0) && Source(looks, kept, name, s, c, d);
      assert !Earlier(c, d, j, i) && !Earlier(j, i, c, d);
    }
  }

  /** Or the largest size asked for. */
  lemma {:induction false} CommonIs(looks: seq<Look>, kept: seq<bool>, l: seq<Entry>, name: string, size: int)
    requires Run(looks, |looks|) == Going(State(l, kept)) && (forall k :: 0 <= k < |looks| ==> Good(looks[k].m))
    requires |kept| == |looks| && Common(looks, kept, name, size)
    ensures Value(l, name) == Some(Sym(Undf, size))
  {
    hide Run, PassedOver, Place1, Value;
    TraceAll(looks, kept, |looks|, name);
    var a: nat, b: nat :| Earlier(a, b, |looks|, 0) && Asks(looks, kept, name, a, b);
    KeptMention(looks, kept, name, a, b);
  }

  lemma {:induction false} KeptMention(looks: seq<Look>, kept: seq<bool>, name: string, a: nat, b: nat)
    requires |kept| == |looks| && Asks(looks, kept, name, a, b)
    ensures exists c: nat, d: nat :: Earlier(c, d, |looks|, 0) && Mentions(looks, name, c, d) && kept[c]
  {
    if kept[a] {
      assert Earlier(a, b, |looks|, 0);
    } else {
      var c: nat, d: nat :| c < a && kept[c] && Mentions(looks, name, c, d);
      assert Earlier(c, d, |looks|, 0);
    }
  }

  /** Or nothing. */
  lemma {:induction false} UnknownIs(looks: seq<Look>, kept: seq<bool>, l: seq<Entry>, name: string)
    requires Run(looks, |looks|) == Going(State(l, kept)) && (forall k :: 0 <= k < |looks| ==> Good(looks[k].m))
    requires |kept| == |looks| && Unknown(looks, kept, name)
    ensures Value(l, name) == Some(Sym(Undf, 0))
  {
    hide Run, Place1, Value, Asks;
    TraceAll(looks, kept, |looks|, name);
    var c: nat, d: nat :| Mentions(looks, name, c, d) && kept[c];
    assert Earlier(c, d, |looks|, 0);
  }

  /** Names that no loaded module has are not in the table. */
  lemma {:induction false} NoName(looks: seq<Look>, kept: seq<bool>, l: seq<Entry>, name: string)
    requires Run(looks, |looks|) == Going(State(l, kept)) && (forall k :: 0 <= k < |looks| ==> Good(looks[k].m))
    requires |kept| == |looks| && Nowhere(looks, kept, name)
    ensures Value(l, name) == None
  {
    hide Run, Value;
    TraceAll(looks, kept, |looks|, name);
  }

  /** There are no other names. */
  lemma {:induction false} EveryName(looks: seq<Look>, kept: seq<bool>, l: seq<Entry>, name: string)
    requires Run(looks, |looks|) == Going(State(l, kept)) && (forall k :: 0 <= k < |looks| ==> Good(looks[k].m))
    requires |kept| == |looks|
    ensures || Nowhere(looks, kept, name) || (exists j: nat, i: nat :: Decides(looks, kept, name, j, i))
            || (exists size :: Common(looks, kept, name, size)) || Unknown(looks, kept, name)
  {
    hide Run, Place1, Value;
    TraceAll(looks, kept, |looks|, name);
    if Value(l, name).Some? {
      var s := Value(l, name).value;
      if s.kind != Undf {
        var c: nat, d: nat :| Earlier(c, d, |looks|, 0) && Source(looks, kept, name, s, c, d);
        assert Decides(looks, kept, name, c, d);
      } else if s.value > 0 {
        assert Common(looks, kept, name, s.value);
      } else {
        assert Unknown(looks, kept, name);
      }
    }
  }

  // ---------------------------------------------------------------------------------------
  // Between the passes

  /** The linker's own names stand for the ends of the segments. */
  function Own(looks: seq<Look>, kept: seq<bool>, base: Origins, name: string): Sym
    requires |kept| == |looks|
  {
    if name == "_etext" then Sym(Text, PartOf(looks, kept, base, Text, |looks|))
    else if name == "_edata" then Sym(Data, PartOf(looks, kept, base, Data, |looks|))
    else if name == "_end" then Sym(Bss, PartOf(looks, kept, base, Bss, |looks|))
    else Sym(Undf, 0)
  }

  /** Room between data and bss, at a multiple of two, four or eight behind the data. */
  predicate Roomed(looks: seq<Look>, kept: seq<bool>, base: Origins, size: int, v: Sym)
    requires |kept| == |looks|
  {
    var end := PartOf(looks, kept, base, Data, |looks|);
    && v.kind == Bss && end <= v.value && v.value + size <= base.bss
    && (v.value - end) % (if size >= 8 then 8 else if size >= 4 then 4 else 2) == 0
  }

  /** Behind the data bss begins at once, or at the first multiple of four behind the last room. */
  ghost predicate NoWaste(u: seq<Entry>, looks: seq<Look>, kept: seq<bool>, base: Origins)
    requires |kept| == |looks|
  {
    base.bss == PartOf(looks, kept, base, Data, |looks|) || exists name, size ::
      Common(looks, kept, name, size) && Value(u, name).Some? && base.bss < Value(u, name).value.value + size + 4
  }

  /** The final table has its address so. */
  ghost predicate AtPlace(u: seq<Entry>, looks: seq<Look>, kept: seq<bool>, base: Origins, name: string, j: nat, i: nat)
    requires |kept| == |looks| && Decides(looks, kept, name, j, i)
  {
    Value(u, name).Some? && Moved(looks, kept, base, j, looks[j].m.syms[i].sym, Value(u, name).value)
  }

  /** The final table */
  ghost predicate Placed(u: seq<Entry>, looks: seq<Look>, kept: seq<bool>, base: Origins, allot: bool)
    requires |kept| == |looks|
  {
    && (forall name: string, j: nat, i: nat :: Decides(looks, kept, name, j, i) ==>
          AtPlace(u, looks, kept, base, name, j, i))
    && (forall name: string, size: int :: Common(looks, kept, name, size) ==>
          && Value(u, name).Some?
          && if allot then Roomed(looks, kept, base, size, Value(u, name).value)
             else Value(u, name).value == Sym(Undf, size))
    && (forall name: string, size: int, other: string, size': int ::
          Common(looks, kept, name, size) && Common(looks, kept, other, size') && name != other && allot ==>
            var v, v' := Value(u, name).value.value, Value(u, other).value.value;
            v + size <= v' || v' + size' <= v)
    && (allot ==> NoWaste(u, looks, kept, base))
    && (forall name: string :: Unknown(looks, kept, name) ==>
          Value(u, name) == Some(if allot then Own(looks, kept, base, name) else Sym(Undf, 0)))
    && (forall name: string :: Nowhere(looks, kept, name) ==> Value(u, name) == None)
  }

  lemma {:induction false} SpecialValue(l: seq<Entry>, name: string, s: Sym, other: string)
    ensures Value(Special(l, name, s), other)
         == if other == name && Value(l, other) == Some(Sym(Undf, 0)) then Some(s) else Value(l, other)
  {
    IndexIs(Special(l, name, s), other, Index(l, other));
  }

  lemma {:induction false} SpecialsValue(l: seq<Entry>, sizes: Origins, name: string)
    ensures Value(Specials(l, sizes), name)
         == if Value(l, name) != Some(Sym(Undf, 0)) then Value(l, name)
            else if name == "_etext" then Some(Sym(Text, sizes.text))
            else if name == "_edata" then Some(Sym(Data, sizes.data))
            else if name == "_end" then Some(Sym(Bss, sizes.bss))
            else Value(l, name)
  {
    hide Special, Value;
    var k := Special(l, "_etext", Sym(Text, sizes.text));
    SpecialValue(l, "_etext", Sym(Text, sizes.text), name);
    SpecialValue(k, "_edata", Sym(Data, sizes.data), name);
    SpecialValue(Special(k, "_edata", Sym(Data, sizes.data)), "_end", Sym(Bss, sizes.bss), name);
  }

  /** The place of one name in the final table. */
  lemma {:induction false} FinalIndex(l: seq<Entry>, sizes: Origins, textbase: int, align: nat, hsize: int,
                                      allot: bool, name: string)
    requires align > 0
    ensures var (u, base) := Layout.Middle(l, sizes, textbase, align, hsize, allot);
      var i, k := Index(l, name), if allot then Specials(l, sizes) else l;
      && Index(u, name) == Index(k, name) == i && |u| == |k| == |l|
      && (i < |l| ==> u[i].sym == Finished(Allotted(l, sizes, allot).0[i].sym, base, base.data + sizes.data))
  {
    hide Layout.Middle, Specials, Allot, RoundUp, Finished;
    MiddleParts(l, sizes, textbase, align, hsize, allot);
    var (u, base) := Layout.Middle(l, sizes, textbase, align, hsize, allot);
    var i := Index(l, name);
    IndexIs(if allot then Specials(l, sizes) else l, name, i);
    IndexIs(u, name, i);
  }

  predicate Sensible(l: seq<Entry>) {
    forall i :: 0 <= i < |l| ==> l[i].sym.kind != Comm && (l[i].sym.kind == Undf ==> l[i].sym.value >= 0)
  }

  /** What has no size to ask for only has its base added. */
  lemma {:induction false} PlainValue(l: seq<Entry>, sizes: Origins, textbase: int, align: nat, hsize: int,
                                      allot: bool, name: string)
    requires align > 0 && Sensible(l)
    requires var s := Value(if allot then Specials(l, sizes) else l, name);
      s.Some? && (s.value.kind == Undf ==> s.value.value == 0 || !allot)
    ensures var (u, base) := Layout.Middle(l, sizes, textbase, align, hsize, allot);
      Value(u, name) == Some(Plus(Value(if allot then Specials(l, sizes) else l, name).value, base))
  {
    hide Layout.Middle, Specials, Allot, RoundUp;
    FinalIndex(l, sizes, textbase, align, hsize, allot, name);
    if allot {
      RoomApart(Specials(l, sizes), |l|, Index(l, name));
    }
  }

  /** What asks for room gets it. */
  lemma {:induction false} RoomValue(l: seq<Entry>, sizes: Origins, textbase: int, align: nat, hsize: int, name: string)
    requires align > 0 && Sensible(l)
    requires Value(l, name).Some? && Value(l, name).value.kind == Undf && Value(l, name).value.value > 0
    ensures var (u, base) := Layout.Middle(l, sizes, textbase, align, hsize, true);
      var size, i, k, end := Value(l, name).value.value, Index(l, name), Specials(l, sizes), base.data + sizes.data;
      && Value(u, name).Some? && i < |k| == |l|
      && var v := Value(u, name).value;
         && v.kind == Bss && (v.value - end) % Alignment(size) == 0
         && 0 <= Allot(k, i).1 <= v.value - end && v.value - end + size == Allot(k, i + 1).1 <= Allot(k, |k|).1
  {
    hide Layout.Middle, Specials, Allot, RoundUp, Alignment, Index;
    FinalIndex(l, sizes, textbase, align, hsize, true, name);
    var k, i := Specials(l, sizes), Index(l, name);
    assert k[i] == l[i];
    RoomApart(k, |l|, i);
    var (u, base) := Layout.Middle(l, sizes, textbase, align, hsize, true);
    assert Value(u, name).value.value == Allot(k, |k|).0[i].sym.value + (base.data + sizes.data);
  }

  /** Two of them lie apart. */
  lemma {:induction false} RoomsApart(l: seq<Entry>, sizes: Origins, textbase: int, align: nat, hsize: int,
                                      name: string, other: string)
    requires align > 0 && Sensible(l) && Index(l, name) < Index(l, other)
    requires Value(l, name).Some? && Value(l, name).value.kind == Undf && Value(l, name).value.value > 0
    requires Value(l, other).Some? && Value(l, other).value.kind == Undf && Value(l, other).value.value > 0
    ensures var (u, base) := Layout.Middle(l, sizes, textbase, align, hsize, true);
      Value(u, name).Some? && Value(u, other).Some? &&
      Value(u, name).value.value + Value(l, name).value.value <= Value(u, other).value.value
  {
    hide Layout.Middle, Specials, Allot, RoundUp, Alignment;
    RoomValue(l, sizes, textbase, align, hsize, name);
    RoomValue(l, sizes, textbase, align, hsize, other);
    RoomApart(Specials(l, sizes), Index(l, other), Index(l, name));
  }

  /** Where the segments begin. */
  lemma {:induction false} SegmentsAre(looks: seq<Look>, kept: seq<bool>, l: seq<Entry>, textbase: int, align: nat,
                                       hsize: int, allot: bool)
    requires |kept| == |looks| && align > 0 && Sensible(l)
    ensures var sizes := Sizes(looks, kept, |looks|);
      var base := Layout.Middle(l, sizes, textbase, align, hsize, allot).1;
      && Segmented(looks, kept, base, textbase, align, hsize, allot)
      && base.bss == base.data + sizes.data + Padded(Allotted(l, sizes, allot).1)
      && PartOf(looks, kept, base, Data, |looks|) == base.data + sizes.data
  {
    hide Layout.Middle, Specials, Allot, RoundUp;
    var sizes := Sizes(looks, kept, |looks|);
    SizesTaken(looks, kept, |looks|);
    MiddleParts(l, sizes, textbase, align, hsize, allot);
    RoundedBy(sizes.text + textbase, align);
    RoundIsPadded(Allotted(l, sizes, allot).1);
    if allot {
      AllotSize(Specials(l, sizes), |l|);
    }
  }

  /** What pass 1 has come to. */
  ghost predicate Come(looks: seq<Look>, kept: seq<bool>, l: seq<Entry>) {
    && |kept| == |looks| && Run(looks, |looks|) == Going(State(l, kept)) && Sensible(l)
    && forall k :: 0 <= k < |looks| ==> Good(looks[k].m)
  }

  lemma {:induction false} DecidedPlace(looks: seq<Look>, kept: seq<bool>, l: seq<Entry>, textbase: int, align: nat,
                                        hsize: int, allot: bool, name: string, j: nat, i: nat)
    requires Come(looks, kept, l) && align > 0 && Decides(looks, kept, name, j, i)
    ensures var (u, base) := Layout.Middle(l, Sizes(looks, kept, |looks|), textbase, align, hsize, allot);
      AtPlace(u, looks, kept, base, name, j, i)
  {
    hide Layout.Middle, Specials, Value, Run, Sizes;
    var sizes := Sizes(looks, kept, |looks|);
    DecidesIs(looks, kept, l, name, j, i);
    SpecialsValue(l, sizes, name);
    PlainValue(l, sizes, textbase, align, hsize, allot, name);
    SizesTaken(looks, kept, j);
  }

  lemma {:induction false} CommonPlace(looks: seq<Look>, kept: seq<bool>, l: seq<Entry>, textbase: int, align: nat,
                                       hsize: int, allot: bool, name: string, size: int)
    requires Come(looks, kept, l) && align > 0 && Common(looks, kept, name, size)
    ensures var (u, base) := Layout.Middle(l, Sizes(looks, kept, |looks|), textbase, align, hsize, allot);
      && Value(u, name).Some?
      && if allot then Roomed(looks, kept, base, size, Value(u, name).value)
         else Value(u, name).value == Sym(Undf, size)
  {
    hide Layout.Middle, Specials, Allot, Value, Run, Sizes, Segmented, PartOf, Common;
    var sizes := Sizes(looks, kept, |looks|);
    CommonIs(looks, kept, l, name, size);
    SegmentsAre(looks, kept, l, textbase, align, hsize, allot);
    if allot {
      CommonPositive(looks, kept, name, size);
      RoomValue(l, sizes, textbase, align, hsize, name);
    } else {
      PlainValue(l, sizes, textbase, align, hsize, allot, name);
    }
  }

  lemma {:induction false} CommonPositive(looks: seq<Look>, kept: seq<bool>, name: string, size: int)
    requires |kept| == |looks| && Common(looks, kept, name, size)
    ensures size > 0
  {
  }

  lemma {:induction false} UnknownPlace(looks: seq<Look>, kept: seq<bool>, l: seq<Entry>, textbase: int, align: nat,
                                        hsize: int, allot: bool, name: string)
    requires Come(looks, kept, l) && align > 0 && Unknown(looks, kept, name)
    ensures var (u, base) := Layout.Middle(l, Sizes(looks, kept, |looks|), textbase, align, hsize, allot);
      Value(u, name) == Some(if allot then Own(looks, kept, base, name) else Sym(Undf, 0))
  {
    hide Layout.Middle, Specials, Allot, Value, Run, Sizes;
    var sizes := Sizes(looks, kept, |looks|);
    UnknownIs(looks, kept, l, name);
    SpecialsValue(l, sizes, name);
    PlainValue(l, sizes, textbase, align, hsize, allot, name);
    SizesTaken(looks, kept, |looks|);
  }

  lemma {:induction false} CommonsApart(looks: seq<Look>, kept: seq<bool>, l: seq<Entry>, textbase: int, align: nat,
                                        hsize: int, name: string, size: int, other: string, size': int)
    requires Come(looks, kept, l) && align > 0
    requires Common(looks, kept, name, size) && Common(looks, kept, other, size') && name != other
    ensures var (u, base) := Layout.Middle(l, Sizes(looks, kept, |looks|), textbase, align, hsize, true);
      && Value(u, name).Some? && Value(u, other).Some?
      && var v, v' := Value(u, name).value.value, Value(u, other).value.value;
         v + size <= v' || v' + size' <= v
  {
    hide Layout.Middle, Run, Sizes, Common;
    var sizes := Sizes(looks, kept, |looks|);
    CommonIs(looks, kept, l, name, size);
    CommonIs(looks, kept, l, other, size');
    CommonPositive(looks, kept, name, size);
    CommonPositive(looks, kept, other, size');
    if Index(l, name) < Index(l, other) {
      RoomsApart(l, sizes, textbase, align, hsize, name, other);
    } else {
      RoomsApart(l, sizes, textbase, align, hsize, other, name);
    }
  }

  /** What asks for room in the table is common. */
  lemma {:induction false} CommonAt(looks: seq<Look>, kept: seq<bool>, l: seq<Entry>, i: nat)
    requires Come(looks, kept, l) && i < |l| && l[i].sym.kind == Undf && l[i].sym.value > 0
    ensures Index(l, l[i].name) == i && Common(looks, kept, l[i].name, l[i].sym.value)
  {
    hide Run, Place1;
    TraceAll(looks, kept, |looks|, l[i].name);
    IndexIs(l, l[i].name, i);
  }

  /** The last room ends where what is taken in all does. */
  lemma {:induction false} LastRoom(l: seq<Entry>, n: nat) returns (i: nat)
    requires n <= |l| && Allot(l, n).1 != 0
    ensures i < n && l[i].sym.kind == Undf && l[i].sym.value != 0
    ensures Allot(l, n).0[i].sym.value + l[i].sym.value == Allot(l, n).1
  {
    hide RoundUp, Alignment;
    AllotNext(l, n - 1);
    i := n - 1;
    if l[i].sym.kind != Undf || l[i].sym.value == 0 {
      i := LastRoom(l, n - 1);
    }
  }

  lemma {:induction false} NoneWasted(looks: seq<Look>, kept: seq<bool>, l: seq<Entry>, textbase: int, align: nat,
                                      hsize: int)
    requires Come(looks, kept, l) && align > 0
    ensures var (u, base) := Layout.Middle(l, Sizes(looks, kept, |looks|), textbase, align, hsize, true);
      NoWaste(u, looks, kept, base)
  {
    hide Layout.Middle, Specials, Allot, Run, Sizes, Common, Segmented, RoundUp, PartOf;
    var sizes := Sizes(looks, kept, |looks|);
    var (u, base) := Layout.Middle(l, sizes, textbase, align, hsize, true);
    SegmentsAre(looks, kept, l, textbase, align, hsize, true);
    var k := Specials(l, sizes);
    if Allot(k, |k|).1 != 0 {
      var i := LastRoom(k, |k|);
      assert k[i] == l[i];
      CommonAt(looks, kept, l, i);
      FinalIndex(l, sizes, textbase, align, hsize, true, l[i].name);
      RoomApart(k, |k|, i);
      assert Common(looks, kept, l[i].name, l[i].sym.value);
    }
  }

  /** All of it */
  lemma {:induction false} AllPlaced(looks: seq<Look>, kept: seq<bool>, l: seq<Entry>, textbase: int, align: nat,
                                     hsize: int, allot: bool)
    requires Come(looks, kept, l) && align > 0
    ensures var (u, base) := Layout.Middle(l, Sizes(looks, kept, |looks|), textbase, align, hsize, allot);
      Segmented(looks, kept, base, textbase, align, hsize, allot) && Placed(u, looks, kept, base, allot)
  {
    hide Layout.Middle, Run, Sizes, Common, Decides, Unknown, Moved, Roomed, Own, Value, Segmented, Nowhere, AtPlace;
    hide NoWaste;
    var sizes := Sizes(looks, kept, |looks|);
    var (u, base) := Layout.Middle(l, sizes, textbase, align, hsize, allot);
    SegmentsAre(looks, kept, l, textbase, align, hsize, allot);
    forall name: string, j: nat, i: nat | Decides(looks, kept, name, j, i)
      ensures AtPlace(u, looks, kept, base, name, j, i)
    {
      DecidedPlace(looks, kept, l, textbase, align, hsize, allot, name, j, i);
    }
    forall name: string, size: int | Common(looks, kept, name, size)
      ensures Value(u, name).Some?
      ensures if allot then Roomed(looks, kept, base, size, Value(u, name).value)
              else Value(u, name).value == Sym(Undf, size)
    {
      CommonPlace(looks, kept, l, textbase, align, hsize, allot, name, size);
    }
    forall name: string, size: int, other: string, size': int |
      Common(looks, kept, name, size) && Common(looks, kept, other, size') && name != other && allot
      ensures Value(u, name).Some? && Value(u, other).Some? &&
              var v, v' := Value(u, name).value.value, Value(u, other).value.value;
              v + size <= v' || v' + size' <= v
    {
      CommonsApart(looks, kept, l, textbase, align, hsize, name, size, other, size');
    }
    forall name: string | Unknown(looks, kept, name)
      ensures Value(u, name) == Some(if allot then Own(looks, kept, base, name) else Sym(Undf, 0))
    {
      UnknownPlace(looks, kept, l, textbase, align, hsize, allot, name);
    }
    if allot {
      NoneWasted(looks, kept, l, textbase, align, hsize);
    }
    forall name: string | Nowhere(looks, kept, name)
      ensures Value(u, name) == None
    {
      NoPlace(looks, kept, l, textbase, align, hsize, allot, name);
    }
  }

  lemma {:induction false} NoPlace(looks: seq<Look>, kept: seq<bool>, l: seq<Entry>, textbase: int, align: nat,
                                   hsize: int, allot: bool, name: string)
    requires Come(looks, kept, l) && align > 0 && Nowhere(looks, kept, name)
    ensures Value(Layout.Middle(l, Sizes(looks, kept, |looks|), textbase, align, hsize, allot).0, name) == None
  {
    hide Layout.Middle, Run, Sizes;
    NoName(looks, kept, l, name);
    FinalIndex(l, Sizes(looks, kept, |looks|), textbase, align, hsize, allot, name);
  }
}
