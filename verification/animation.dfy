/** The animation driver: the fixed pool of strands created when the page
    loads, and one frame of `update`, which clears the canvas and lets every
    strand draw and step in pool order. */
module Animation {
  import opened Setup
  import opened Particles

  /** The start-up loop: `NUM_SEQS` strands, each rolled by `init` from its own
      draws, all just above the top edge and satisfying the strand invariant. */
  function Populate(sc: Scene, ds: seq<InitDraws>): (pool: seq<Particle>)
    requires |ds| == sc.cfg.numSeqs
    ensures |pool| == sc.cfg.numSeqs
    ensures forall k :: 0 <= k < |pool| ==> -100.0 <= pool[k].y < 0.0
    ensures sc.Valid() ==> forall k :: 0 <= k < |pool| ==> Inv(sc, pool[k])
  {
    seq(|ds|, k requires 0 <= k < |ds| => Init(sc, ds[k]))
  }

  /** The number of characters in a run of strands. */
  function TotalGlyphs(ps: seq<Particle>): nat
  {
    if ps == [] then 0 else TotalGlyphs(ps[..|ps| - 1]) + |ps[|ps| - 1].text|
  }

  /** The characters of the strands before `j` come before all of strand `j`
      within the first `k` strands. */
  lemma {:induction false} TotalGlyphsPrefix(ps: seq<Particle>, j: nat, k: nat)
    requires j < k <= |ps|
    ensures TotalGlyphs(ps[..j]) + |ps[j].text| <= TotalGlyphs(ps[..k])
    decreases k - j
  {
    assert ps[..j + 1][..j] == ps[..j];
    if j + 1 < k {
      TotalGlyphsPrefix(ps, j + 1, k);
      assert ps[..k][..k - 1] == ps[..k - 1];
      if j + 1 < k - 1 {
        TotalGlyphsPrefix(ps, j + 1, k - 1);
      }
    }
  }

  /** Where the glyphs of strand `k` begin in a frame: after the background
      fill and the glyphs of every earlier strand. */
  function Offset(pool: seq<Particle>, k: int): nat
    requires 0 <= k <= |pool|
  {
    1 + TotalGlyphs(pool[..k])
  }

  /** Where character `i` of strand `k` lands in a frame. */
  function Slot(pool: seq<Particle>, k: int, i: int): int
    requires 0 <= k <= |pool|
  {
    Offset(pool, k) + i
  }

  /** The glyphs of the first `k` strands sit in `frame` at their offsets. */
  ghost predicate PaintedUpTo(frame: seq<Paint>, pool: seq<Particle>, k: nat)
    requires k <= |pool|
  {
    forall j, i :: 0 <= j < k && 0 <= i < |pool[j].text| ==>
      Slot(pool, j, i) < |frame| && frame[Slot(pool, j, i)] == GlyphAt(pool[j], i)
  }

  /** Appending the glyphs of strand `k` to a frame that ends after strand
      `k - 1` extends the painted prefix by one strand. */
  lemma PaintedExtend(frame: seq<Paint>, cmds: seq<Paint>, pool: seq<Particle>, k: nat)
    requires k < |pool|
    requires PaintedUpTo(frame, pool, k) && |frame| == Offset(pool, k)
    requires |cmds| == |pool[k].text|
    requires forall i :: 0 <= i < |cmds| ==> cmds[i] == GlyphAt(pool[k], i)
    ensures PaintedUpTo(frame + cmds, pool, k + 1)
    ensures |frame + cmds| == Offset(pool, k + 1)
  {
    assert pool[..k + 1][..k] == pool[..k];
    var f := frame + cmds;
    forall j, i | 0 <= j < k + 1 && 0 <= i < |pool[j].text|
      ensures Slot(pool, j, i) < |f| && f[Slot(pool, j, i)] == GlyphAt(pool[j], i)
    {
      if j < k {
        TotalGlyphsPrefix(pool, j, k);
        assert f[Slot(pool, j, i)] == frame[Slot(pool, j, i)];
      }
    }
  }

  /** `update`: the frame starts with a full background fill, then holds the
      glyphs of every strand in pool order, each painted from the strand's
      state before the frame; every strand is then stepped with its own
      re-roll draws, and the pool keeps its size. */
  method Tick(sc: Scene, pool: seq<Particle>, ds: seq<InitDraws>) returns (frame: seq<Paint>, next: seq<Particle>)
    requires |pool| == sc.cfg.numSeqs && |ds| == |pool|
    ensures |next| == |pool|
    ensures forall k :: 0 <= k < |pool| ==> next[k] == Advance(sc, pool[k], ds[k])
    ensures |frame| == 1 + TotalGlyphs(pool)
    ensures |frame| > 0 && frame[0] == Clear(sc.width, sc.height)
    ensures forall k, i :: 0 <= k < |pool| && 0 <= i < |pool[k].text| ==>
      Slot(pool, k, i) < |frame| && frame[Slot(pool, k, i)] == GlyphAt(pool[k], i)
    ensures sc.Valid() ==> forall k :: 0 <= k < |pool| && Inv(sc, pool[k]) ==> Inv(sc, next[k])
  {
    frame := [Clear(sc.width, sc.height)];
    next := [];
    var k := 0;
    while k < |pool|
      invariant 0 <= k <= |pool|
      invariant |next| == k
      invariant forall j :: 0 <= j < k ==> next[j] == Advance(sc, pool[j], ds[j])
      invariant |frame| == Offset(pool, k)
      invariant frame[0] == Clear(sc.width, sc.height)
      invariant PaintedUpTo(frame, pool, k)
    {
      var cmds, q := Draw(sc, pool[k], ds[k]);
      PaintedExtend(frame, cmds, pool, k);
      frame := frame + cmds;
      next := next + [q];
      k := k + 1;
    }
    assert pool[..|pool|] == pool;
  }
}
