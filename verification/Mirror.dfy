/** The compressor's string table is the decompressor's, one entry ahead. */
module Mirror {

  import opened Basics
  import opened BitStream
  import opened Lzw

  /** The compressor has table `tab` and is about to send `ent`; the decompressor, having taken all
      codes sent so far, is in state d. */
  ghost predicate Mirrors(cfg: Config, d: Decoder, tab: seq<Entry>, ent: nat) {
    && cfg.maxbits >= INIT_BITS && DecoderOk(cfg, d) && TableOk(cfg, tab) && Usable(cfg, tab, ent)
    && cfg.FirstFree() <= |tab| <= cfg.MaxMaxCode()
    && match d.mode
       case AtStart => tab == d.tab && ent < 256
       case Running => tab == Extended(cfg, d, Str(cfg, tab, ent)[0])
       case AfterClear => |tab| == FIRST && tab[..256] == d.tab && ent < 256
  }

  lemma {:induction false} StartMirrors(cfg: Config, c: byte)
    requires cfg.Valid() && cfg.maxbits >= INIT_BITS
    ensures Mirrors(cfg, InitDecoder(cfg), InitDecoder(cfg).tab, c)
  {
    Pow2Table();
    Pow2Mono(9, cfg.maxbits);
  }

  /** Sending the pending code: the decompressor writes its string, KwKwK included, and catches up
      with the compressor's table. */
  lemma {:induction false} SendMirrors(cfg: Config, d: Decoder, tab: seq<Entry>, ent: nat)
    requires cfg.Valid() && Mirrors(cfg, d, tab, ent)
    ensures Step(cfg, d, ent).Some?
    ensures var d' := Step(cfg, d, ent).value;
      && DecoderOk(cfg, d') && d'.mode.Running? && d'.oldcode == ent
      && d'.out == d.out + Str(cfg, tab, ent)
      && |d'.tab| == |tab|
      && (forall c: nat :: 256 <= c < |tab| && Usable(cfg, tab, c) ==> d'.tab[c] == tab[c])
  {
    Pow2Table();
    Pow2Mono(9, cfg.maxbits);
    if d.mode.AtStart? {
    } else if d.mode.AfterClear? {
    } else if ent < |d.tab| {
      StrExtends(cfg, d.tab, tab, ent);
    } else {
      StrExtends(cfg, d.tab, tab, d.oldcode);
    }
    StepKeeps(cfg, d, ent);
  }

  /** The table the compressor has after entering (ent, c), if there is room. */
  function Entered(cfg: Config, tab: seq<Entry>, ent: nat, c: byte): seq<Entry> {
    if |tab| < cfg.MaxMaxCode() then tab + [Entry(ent, c)] else tab
  }

  /** Entering the new pair puts the compressor one entry ahead again. */
  lemma {:induction false} EnterMirrors(cfg: Config, d: Decoder, c: byte)
    requires cfg.Valid() && cfg.maxbits >= INIT_BITS && DecoderOk(cfg, d) && d.mode.Running?
    requires cfg.FirstFree() <= |d.tab| <= cfg.MaxMaxCode()
    ensures Mirrors(cfg, d, Entered(cfg, d.tab, d.oldcode, c), c)
  {
    var tab := Entered(cfg, d.tab, d.oldcode, c);
    assert forall x: nat :: Usable(cfg, d.tab, x) ==> Usable(cfg, tab, x);
    assert Str(cfg, tab, c) == [c];
  }

  /** CLEAR puts both sides back to the literals. */
  lemma {:induction false} ClearMirrors(cfg: Config, d: Decoder, c: byte)
    requires cfg.Valid() && cfg.block && cfg.maxbits >= INIT_BITS && DecoderOk(cfg, d) && d.mode.Running?
    ensures Step(cfg, d, CLEAR).Some?
    ensures var d' := Step(cfg, d, CLEAR).value;
      d'.mode.AfterClear? && d'.out == d.out && Mirrors(cfg, d', d'.tab + [Entry(0, 0)], c)
  {
    StepKeeps(cfg, d, CLEAR);
    Pow2Table();
    Pow2Mono(9, cfg.maxbits);
    var tab := Step(cfg, d, CLEAR).value.tab + [Entry(0, 0)];
    assert tab[..256] == Step(cfg, d, CLEAR).value.tab;
  }
}
