/** The two string operations the animation uses: `substr` to cut a window
    out of the reference sequence and `toLowerCase` to fold it. */
module JsString {

  /** `t` occurs in `s` as a contiguous run of characters. */
  ghost predicate IsSliceOf(t: string, s: string) {
    exists i :: 0 <= i <= |s| - |t| && Window(s, i, |t|) == t
  }

  /** The `n` characters of `s` starting at index `i`. */
  function Window(s: string, i: int, n: int): string
    requires 0 <= i && 0 <= n && i + n <= |s|
  {
    s[i..i + n]
  }

  function Min(a: int, b: int): int { if a <= b then a else b }
  function Max(a: int, b: int): int { if a <= b then b else a }

  /** `String.prototype.substr(start, length)` for integer arguments, as
      section B.2.2.1 of ECMA-262 defines it: a negative start counts back
      from the end, and the window is clipped to the string. */
  function Substr(s: string, start: int, length: int): (t: string)
    ensures |t| <= |s|
    ensures IsSliceOf(t, s)
    ensures 0 <= start && 0 <= length && start + length <= |s| ==> |t| == length && t == s[start..start + length]
    ensures 0 <= start && start + length > |s| ==> |t| == Max(|s| - start, 0)
  {
    var size := |s|;
    var from := if start < 0 then Max(size + start, 0) else Min(start, size);
    var len := Min(Max(length, 0), size);
    var to := Min(from + len, size);
    assert Window(s, from, to - from) == s[from..to];
    s[from..to]
  }

  predicate IsUpper(c: char) { 'A' <= c <= 'Z' }

  /** Case folding of one character, for the ASCII letters the reference sequence uses. */
  function LowerChar(c: char): char {
    if IsUpper(c) then (c as int + 32) as char else c
  }

  /** No character of `s` is an upper-case letter. */
  predicate IsLowerCase(s: string) {
    forall i :: 0 <= i < |s| ==> !IsUpper(s[i])
  }

  /** `a` and `b` have the same length and agree once both are case-folded. */
  predicate EqualIgnoringCase(a: string, b: string) {
    |a| == |b| && forall i :: 0 <= i < |a| ==> LowerChar(a[i]) == LowerChar(b[i])
  }

  /** `toLowerCase`: a lower-case string of the same length that still spells `s`. */
  function ToLower(s: string): (t: string)
    ensures |t| == |s|
    ensures IsLowerCase(t)
    ensures EqualIgnoringCase(t, s)
  {
    if s == [] then [] else [LowerChar(s[0])] + ToLower(s[1..])
  }

  /** The two facts of `ToLower`'s contract pin its result down: the only
      lower-case string that spells `s` is `ToLower(s)`. */
  lemma ToLowerUnique(s: string, t: string)
    requires IsLowerCase(t) && EqualIgnoringCase(t, s)
    ensures t == ToLower(s)
  {
  }

  /** Lowering leaves a string alone exactly when it is already lower-case. */
  lemma ToLowerFixedIff(s: string)
    ensures ToLower(s) == s <==> IsLowerCase(s)
  {
  }

  /** Folding twice is folding once. */
  lemma ToLowerIdempotent(s: string)
    ensures ToLower(ToLower(s)) == ToLower(s)
  {
  }
}
