/** The animation's configuration constants and the scene they act in: the
    reference sequence and the canvas dimensions, with the quantities the
    page derives from them once at load time. */
module Setup {

  /** The tunable bounds at the top of the animation script. The colours are
      not part of the model. */
  datatype Config = Config(
    minFontSize: int,
    maxFontSize: int,
    minSeqLen: int,
    maxSeqLen: int,
    numSeqs: nat,
    fracUppercase: real,
    minSpeed: int,
    maxSpeed: int)
  {
    /** Bounds that are ordered and a speed that keeps every strand moving down. */
    predicate Valid() {
      && 1 <= minFontSize <= maxFontSize
      && 0 <= minSeqLen <= maxSeqLen
      && 0 < minSpeed <= maxSpeed
    }

    /** `FONT_SIZE_RANGE` */
    function FontSizeRange(): int { maxFontSize - minFontSize }

    /** `SPEED_RANGE` */
    function SpeedRange(): int { maxSpeed - minSpeed }
  }

  /** The values the page ships with. */
  const Defaults: Config := Config(1, 70, 25, 150, 100, 0.5, 1, 20)

  /** Everything a strand's arithmetic depends on besides the random draws:
      the configuration, the reference sequence (`CAS9`) and the canvas size
      (`WIDTH`, `HEIGHT`). */
  datatype Scene = Scene(cfg: Config, reference: string, width: int, height: int)
  {
    /** `SEQ_PADDING`: how far a window of the maximum length can be shifted. */
    function SeqPadding(): int { |reference| - cfg.maxSeqLen }

    /** A usable configuration, a reference long enough for the longest
        window, and a canvas of non-negative height. */
    predicate Valid() {
      && cfg.Valid()
      && |reference| >= cfg.maxSeqLen
      && height >= 0
    }
  }
}
