/** Bytes, byte classes and small generic helpers shared by the detection engine. */
module Bytes {

  /** One octet of input, as the Python `bytes` type hands it out when indexed. */
  type byte = x: int | 0 <= x < 0x100

  datatype Option<+T> = None | Some(value: T)

  /** `[a-zA-Z]` */
  predicate IsAsciiLetter(b: byte) {
    (0x61 <= b <= 0x7A) || (0x41 <= b <= 0x5A)
  }

  /** `[\x80-\xff]`: the "international" bytes. */
  predicate IsHighByte(b: byte) {
    b >= 0x80
  }

  /** Every other byte: the "markers" that delimit words. */
  predicate IsMarker(b: byte) {
    !IsAsciiLetter(b) && !IsHighByte(b)
  }

  /** `xs` can be obtained from `ys` by deleting some elements. */
  predicate IsSubsequence(xs: seq<byte>, ys: seq<byte>)
    decreases |ys|
  {
    xs == [] ||
    (ys != [] && ((xs[0] == ys[0] && IsSubsequence(xs[1..], ys[1..])) || IsSubsequence(xs, ys[1..])))
  }

  lemma {:induction false} SubsequenceIsNoLonger(xs: seq<byte>, ys: seq<byte>)
    requires IsSubsequence(xs, ys)
    ensures |xs| <= |ys|
    decreases |ys|
  {
    if xs != [] {
      if xs[0] == ys[0] && IsSubsequence(xs[1..], ys[1..]) {
        SubsequenceIsNoLonger(xs[1..], ys[1..]);
      } else {
        SubsequenceIsNoLonger(xs, ys[1..]);
      }
    }
  }

  /** Prepending the same element on both sides keeps a subsequence a subsequence. */
  lemma SubsequenceCons(x: byte, xs: seq<byte>, ys: seq<byte>)
    requires IsSubsequence(xs, ys)
    ensures IsSubsequence([x] + xs, [x] + ys)
  {
    assert ([x] + xs)[1..] == xs;
    assert ([x] + ys)[1..] == ys;
  }

  /** Prepending an element to the longer side only keeps a subsequence a subsequence. */
  lemma SubsequenceSkip(x: byte, xs: seq<byte>, ys: seq<byte>)
    requires IsSubsequence(xs, ys)
    ensures IsSubsequence(xs, [x] + ys)
  {
    assert ([x] + ys)[1..] == ys;
  }
}

/** The enumerations the engine shares between its components. */
module Enums {

  /** Verdict of a prober after a feed. */
  datatype ProbingState = Detecting | FoundIt | NotMe

  /** Coarse classification of the input seen so far by the orchestrator. */
  datatype InputState = PureAscii | EscAscii | HighByte

  /** One bit of the caller's language filter; a filter is the set of bits that are set. */
  datatype LanguageFamily = ChineseSimplified | ChineseTraditional | Japanese | Korean | NonCjk

  /** The filter with every bit set. */
  const AllLanguages: set<LanguageFamily> :=
    {ChineseSimplified, ChineseTraditional, Japanese, Korean, NonCjk}
}
