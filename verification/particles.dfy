/** One falling strand of text (a `Sequence` of the animation script): how it
    is rolled from random draws, how it paints itself, and how one frame
    advances or recycles it. */
module Particles {
  import opened Random
  import opened JsString
  import opened Setup

  /** The depth of a strand, `random_float(1, 10)`: it only scales the font
      size and the speed. */
  type Depth = z: real | 1.0 <= z < 10.0 witness 1.0

  /** The fields `init` writes. Positions, speed and depth are exact reals. */
  datatype Particle = Particle(
    length: int,
    text: string,
    z: Depth,
    fontSize: int,
    speed: real,
    x: real,
    y: real,
    height: int)

  /** The six random draws one `init` consumes, in the order it consumes them. */
  datatype InitDraws = InitDraws(length: Draw, start: Draw, lower: Draw, depth: Draw, x: Draw, y: Draw)

  /** One drawing command: the background fill of a whole frame, or one
      character painted at a position with a font size. */
  datatype Paint = Clear(width: int, height: int) | Glyph(ch: char, x: real, y: real, size: int)

  /** `random_int(0, SEQ_PADDING)`: where the sampled window starts. Even the
      longest window fits behind it. */
  function StartIndex(sc: Scene, r: Draw): (start: int)
    ensures sc.Valid() ==> 0 <= start && start + sc.cfg.maxSeqLen <= |sc.reference|
    ensures sc.SeqPadding() > 0 ==> 0 <= start < sc.SeqPadding()
  {
    RandomInt(r, 0, sc.SeqPadding())
  }

  /** `cas9_nmer(n)`: a contiguous window of the reference; for a length up to
      the maximum it has exactly `n` characters. */
  function Nmer(sc: Scene, r: Draw, n: int): (s: string)
    ensures IsSliceOf(s, sc.reference)
    ensures sc.Valid() && 0 <= n <= sc.cfg.maxSeqLen ==> |s| == n
  {
    Substr(sc.reference, StartIndex(sc, r), n)
  }

  /** `0 <= q <= R` for `q = R / z` with `R >= 0` and `z >= 1`. */
  lemma QuotientBounds(R: real, z: Depth)
    ensures R >= 0.0 ==> 0.0 <= R / z <= R
    ensures R > 0.0 ==> R / z > 0.0
  {
    var q := R / z;
    assert q * z == R;
    ProductSigns(q, z);
    if q > 0.0 {
      ProductSigns(z - 1.0, q);
      assert R - q == (z - 1.0) * q;
    }
  }

  /** `R / z` does not grow with `z`, and shrinks strictly for positive `R`. */
  lemma QuotientAntitone(R: real, z1: Depth, z2: Depth)
    requires R >= 0.0 && z1 <= z2
    ensures R / z2 <= R / z1
    ensures R > 0.0 && z1 < z2 ==> R / z2 < R / z1
  {
    var q1, q2 := R / z1, R / z2;
    assert q1 * z1 == R && q2 * z2 == R;
    QuotientBounds(R, z2);
    if q2 > 0.0 {
      ProductSigns(z2 - z1, q2);
      assert (q1 - q2) * z1 == q1 * z1 - q2 * z1;
      assert (z2 - z1) * q2 == q2 * z2 - q2 * z1;
      assert (q1 - q2) * z1 == (z2 - z1) * q2;
      ProductSigns(q1 - q2, z1);
      if z1 < z2 {
        assert (z2 - z1) * q2 > 0.0;
        assert (q1 - q2) * z1 > 0.0;
        assert q1 > q2;
      }
    } else {
      QuotientBounds(R, z1);
    }
  }

  /** `MIN_FONT_SIZE + floor(FONT_SIZE_RANGE / z)`: a whole pixel size within
      the configured bounds. */
  function FontSize(cfg: Config, z: Depth): (fs: int)
    ensures cfg.minFontSize <= cfg.maxFontSize ==> cfg.minFontSize <= fs <= cfg.maxFontSize
  {
    QuotientBounds(cfg.FontSizeRange() as real, z);
    cfg.minFontSize + (cfg.FontSizeRange() as real / z).Floor
  }

  /** `MIN_SPEED + SPEED_RANGE / z`: within the configured bounds, and above
      the minimum whenever the range is not empty. */
  function Speed(cfg: Config, z: Depth): (v: real)
    ensures cfg.minSpeed <= cfg.maxSpeed ==> cfg.minSpeed as real <= v <= cfg.maxSpeed as real
    ensures cfg.minSpeed < cfg.maxSpeed ==> cfg.minSpeed as real < v
  {
    QuotientBounds(cfg.SpeedRange() as real, z);
    cfg.minSpeed as real + cfg.SpeedRange() as real / z
  }

  /** Deeper strands are drawn no larger. */
  lemma FontSizeMonotone(cfg: Config, z1: Depth, z2: Depth)
    requires cfg.minFontSize <= cfg.maxFontSize
    requires z1 <= z2
    ensures FontSize(cfg, z2) <= FontSize(cfg, z1)
  {
    QuotientAntitone(cfg.FontSizeRange() as real, z1, z2);
  }

  /** Deeper strands fall no faster, and strictly slower when the speed range is not empty. */
  lemma SpeedMonotone(cfg: Config, z1: Depth, z2: Depth)
    requires cfg.minSpeed <= cfg.maxSpeed
    requires z1 <= z2
    ensures Speed(cfg, z2) <= Speed(cfg, z1)
    ensures cfg.minSpeed < cfg.maxSpeed && z1 < z2 ==> Speed(cfg, z2) < Speed(cfg, z1)
  {
    QuotientAntitone(cfg.SpeedRange() as real, z1, z2);
  }

  /** `text` is a window of the reference, either verbatim or lower-cased. */
  ghost predicate SampledFrom(text: string, reference: string) {
    exists w :: IsSliceOf(w, reference) && (text == w || text == ToLower(w))
  }

  /** What holds of a strand between frames, whatever its vertical position. */
  ghost predicate Inv(sc: Scene, p: Particle) {
    && sc.cfg.minSeqLen <= p.length <= sc.cfg.maxSeqLen
    && (sc.cfg.minSeqLen < sc.cfg.maxSeqLen ==> p.length < sc.cfg.maxSeqLen)
    && |p.text| == p.length
    && SampledFrom(p.text, sc.reference)
    && p.fontSize == FontSize(sc.cfg, p.z)
    && sc.cfg.minFontSize <= p.fontSize <= sc.cfg.maxFontSize
    && p.speed == Speed(sc.cfg, p.z)
    && sc.cfg.minSpeed as real <= p.speed <= sc.cfg.maxSpeed as real
    && 0.0 < p.speed
    && (p.fontSize < sc.width ==> 0.0 <= p.x && p.x + p.fontSize as real < sc.width as real)
    && p.height == p.fontSize * p.length
  }

  /** `Sequence.prototype.init`: rolls a fresh strand from six draws. It starts
      just above the top edge and satisfies the strand invariant. */
  function Init(sc: Scene, d: InitDraws): (p: Particle)
    ensures -100.0 <= p.y < 0.0
    ensures sc.Valid() ==> Inv(sc, p)
  {
    var length := RandomInt(d.length, sc.cfg.minSeqLen, sc.cfg.maxSeqLen);
    var window := Nmer(sc, d.start, length);
    var text := if d.lower >= sc.cfg.fracUppercase then ToLower(window) else window;
    var z: Depth := RandomFloat(d.depth, 1.0, 10.0);
    var fontSize := FontSize(sc.cfg, z);
    var speed := Speed(sc.cfg, z);
    var x := RandomFloat(d.x, 0.0, (sc.width - fontSize) as real);
    var y := RandomFloat(d.y, -100.0, 0.0);
    Particle(length, text, z, fontSize, speed, x, y, fontSize * length)
  }

  /** Against an all upper-case reference, a non-empty strand comes out
      lower-case exactly when its case draw reaches `FRAC_UPPERCASE`, and in
      either case it spells the window it was cut from. */
  lemma InitLowercaseIff(sc: Scene, d: InitDraws)
    requires forall i :: 0 <= i < |sc.reference| ==> IsUpper(sc.reference[i])
    ensures |Init(sc, d).text| > 0 ==> (IsLowerCase(Init(sc, d).text) <==> d.lower >= sc.cfg.fracUppercase)
    ensures EqualIgnoringCase(Init(sc, d).text, Nmer(sc, d.start, Init(sc, d).length))
  {
    var p := Init(sc, d);
    var length := RandomInt(d.length, sc.cfg.minSeqLen, sc.cfg.maxSeqLen);
    var window := Nmer(sc, d.start, length);
    if |p.text| > 0 && d.lower < sc.cfg.fracUppercase {
      assert p.text == window;
      var i :| 0 <= i <= |sc.reference| - |window| && Window(sc.reference, i, |window|) == window;
      assert window[0] == sc.reference[i];
    }
  }

  /** With `FRAC_UPPERCASE` at 0 every strand is lower-case; at 1 every strand
      keeps the reference's case. */
  lemma CaseScenarios(sc: Scene, d: InitDraws)
    ensures sc.cfg.fracUppercase <= 0.0 ==> IsLowerCase(Init(sc, d).text)
    ensures sc.cfg.fracUppercase >= 1.0 ==> IsSliceOf(Init(sc, d).text, sc.reference)
  {
  }

  /** With equal length bounds every strand has exactly that many characters. */
  lemma FixedLengthScenario(sc: Scene, d: InitDraws)
    requires sc.Valid() && sc.cfg.minSeqLen == sc.cfg.maxSeqLen
    ensures |Init(sc, d).text| == sc.cfg.maxSeqLen
  {
  }

  /** The page's own constants with its 1000-character reference: the padding
      is 850, and every strand has 25 to 149 characters, a font size from 1 to
      70 and a speed above 1 and at most 20. */
  lemma ShippedDefaults(reference: string, width: int, height: int, d: InitDraws)
    requires |reference| == 1000 && height >= 0
    ensures Defaults.Valid()
    ensures Scene(Defaults, reference, width, height).SeqPadding() == 850
    ensures var p := Init(Scene(Defaults, reference, width, height), d);
      && 25 <= p.length <= 149 && |p.text| == p.length
      && 1 <= p.fontSize <= 70 && 1.0 < p.speed <= 20.0
  {
  }

  /** The step from `p` moves it past `height + HEIGHT`, so `draw` re-rolls it. */
  predicate Recycles(sc: Scene, p: Particle) {
    p.y + p.speed > (p.height + sc.height) as real
  }

  /** `q` is `p` at another vertical position. */
  predicate SameStrand(p: Particle, q: Particle) {
    q == p.(y := q.y)
  }

  /** The state half of `Sequence.prototype.draw`: fall by `speed`, and re-roll
      from `d` once past the bottom. Falling keeps every other field; a re-roll
      lands above the top edge; either way the strand invariant survives. */
  function Advance(sc: Scene, p: Particle, d: InitDraws): (q: Particle)
    ensures !Recycles(sc, p) ==> SameStrand(p, q) && q.y == p.y + p.speed && q.y <= (p.height + sc.height) as real
    ensures Recycles(sc, p) ==> q == Init(sc, d) && -100.0 <= q.y < 0.0 && (sc.Valid() ==> Inv(sc, q))
    ensures Inv(sc, p) && sc.Valid() ==> Inv(sc, q)
    ensures Inv(sc, p) && !Recycles(sc, p) ==> q.y > p.y
  {
    var y := p.y + p.speed;
    if y > (p.height + sc.height) as real then Init(sc, d) else p.(y := y)
  }

  /** Character `i` of the strand, painted `i` font sizes above `y`. */
  function GlyphAt(p: Particle, i: int): Paint
    requires 0 <= i < |p.text|
  {
    Glyph(p.text[i], p.x, p.y - i as real * p.fontSize as real, p.fontSize)
  }

  /** The column reads downwards: a later character sits strictly higher, in
      the same column. */
  lemma GlyphColumn(p: Particle, i: int, j: int)
    requires 0 <= i < j < |p.text| && p.fontSize > 0
    ensures GlyphAt(p, j).y < GlyphAt(p, i).y
    ensures GlyphAt(p, j).x == GlyphAt(p, i).x
  {
    ProductSigns((j - i) as real, p.fontSize as real);
    assert GlyphAt(p, i).y - GlyphAt(p, j).y == (j - i) as real * p.fontSize as real;
  }

  /** `Sequence.prototype.draw`: one glyph per character, stacked upwards from
      `y`, then the step of `Advance`. */
  method Draw(sc: Scene, p: Particle, d: InitDraws) returns (cmds: seq<Paint>, q: Particle)
    ensures |cmds| == |p.text|
    ensures forall i :: 0 <= i < |cmds| ==> cmds[i] == GlyphAt(p, i)
    ensures forall i :: 0 <= i < |cmds| ==> cmds[i].Glyph? && cmds[i].ch == p.text[i] && cmds[i].x == p.x && cmds[i].size == p.fontSize
    ensures p.fontSize > 0 ==> forall i, j :: 0 <= i < j < |cmds| ==> cmds[i].Glyph? && cmds[j].Glyph? && cmds[j].y < cmds[i].y
    ensures q == Advance(sc, p, d)
  {
    cmds := [];
    var i := 0;
    while i < |p.text|
      invariant 0 <= i <= |p.text|
      invariant |cmds| == i
      invariant forall k :: 0 <= k < i ==> cmds[k] == GlyphAt(p, k)
    {
      cmds := cmds + [GlyphAt(p, i)];
      i := i + 1;
    }
    if p.fontSize > 0 {
      forall i, j | 0 <= i < j < |cmds|
        ensures cmds[i].Glyph? && cmds[j].Glyph? && cmds[j].y < cmds[i].y
      {
        GlyphColumn(p, i, j);
      }
    }
    q := Advance(sc, p, d);
  }

  /** The states a strand passes through over successive frames, one set of
      re-roll draws per frame. */
  function Trace(sc: Scene, p: Particle, ds: seq<InitDraws>): (t: seq<Particle>)
    ensures |t| == |ds| + 1 && t[0] == p
    ensures forall k :: 0 <= k < |ds| ==> t[k + 1] == Advance(sc, t[k], ds[k])
    decreases |ds|
  {
    if ds == [] then [p] else [p] + Trace(sc, Advance(sc, p, ds[0]), ds[1..])
  }

  /** A strand whose position after `n` steps at its speed would be past the
      bottom is re-rolled within those `n` frames. */
  lemma {:induction false} RecyclesWithin(sc: Scene, p: Particle, ds: seq<InitDraws>, n: nat)
    requires 1 <= n <= |ds|
    requires p.y + n as real * p.speed > (p.height + sc.height) as real
    ensures exists k :: 0 <= k < n && Recycles(sc, Trace(sc, p, ds)[k])
    decreases n
  {
    var t := Trace(sc, p, ds);
    if n == 1 {
      assert n as real * p.speed == p.speed;
      assert Recycles(sc, t[0]);
    } else if Recycles(sc, p) {
      assert Recycles(sc, t[0]);
    } else {
      var q := Advance(sc, p, ds[0]);
      assert q.y + (n - 1) as real * q.speed == p.y + n as real * p.speed;
      RecyclesWithin(sc, q, ds[1..], n - 1);
      var t' := Trace(sc, q, ds[1..]);
      assert t == [p] + t';
      var k :| 0 <= k < n - 1 && Recycles(sc, t'[k]);
      assert t[k + 1] == t'[k];
    }
  }
}
