/**
 * The two byte filters of the prober base class: `remove_xml_tags`, which keeps
 * the letters and high bytes found outside `<...>` markup, and
 * `filter_international_words`, which keeps the words holding at least one
 * high byte and turns everything else into spaces.
 *
 * Both are single-pass loops over a buffer; each is a method with loop
 * invariants, proved equal to a recursive specification function, and the
 * properties of the filters are lemmas about those functions.
 */
module CharSetProber {
  import opened Bytes

  const Space: byte := 0x20
  const TagOpen: byte := 0x3C
  const TagClose: byte := 0x3E

  // ---------------------------------------------------------------------------
  // remove_xml_tags
  // ---------------------------------------------------------------------------

  /** What one byte contributes to the output, given the `in_tag` flag before it. */
  function XmlStepOutput(b: byte, inTag: bool): seq<byte> {
    if b == TagOpen || b == TagClose || inTag then []
    else if IsAsciiLetter(b) || IsHighByte(b) then [b]
    else []
  }

  /** The `in_tag` flag after one byte. */
  function TagFlagAfter(b: byte, inTag: bool): bool {
    if b == TagOpen then true else if b == TagClose then false else inTag
  }

  /** The output of the tag stripper over `buf`, started with flag `inTag`. */
  function XmlFiltered(buf: seq<byte>, inTag: bool): seq<byte>
    decreases |buf|
  {
    if buf == [] then []
    else XmlStepOutput(buf[0], inTag) + XmlFiltered(buf[1..], TagFlagAfter(buf[0], inTag))
  }

  /** The `in_tag` flag once all of `buf` has been scanned. */
  function FinalTagFlag(buf: seq<byte>, inTag: bool): bool
    decreases |buf|
  {
    if buf == [] then inTag else FinalTagFlag(buf[1..], TagFlagAfter(buf[0], inTag))
  }

  /** One step of the scan: the output for `buf[i..]` is byte `i`'s output, then the rest. */
  lemma XmlFilteredStep(buf: seq<byte>, i: nat, inTag: bool)
    requires i < |buf|
    ensures XmlFiltered(buf[i..], inTag)
         == XmlStepOutput(buf[i], inTag) + XmlFiltered(buf[i + 1..], TagFlagAfter(buf[i], inTag))
  {
    assert buf[i..][0] == buf[i];
    assert buf[i..][1..] == buf[i + 1..];
  }

  /** `CharSetProber.remove_xml_tags`: one pass with an `in_tag` flag. */
  method RemoveXmlTags(buf: seq<byte>) returns (filtered: seq<byte>)
    ensures filtered == XmlFiltered(buf, false)
  {
    filtered := [];
    var inTag := false;
    for i := 0 to |buf|
      invariant filtered + XmlFiltered(buf[i..], inTag) == XmlFiltered(buf, false)
    {
      var b := buf[i];
      XmlFilteredStep(buf, i, inTag);
      ghost var before, flag := filtered, inTag;
      if b == TagOpen {
        inTag := true;
      } else if b == TagClose {
        inTag := false;
      } else if !inTag {
        if IsAsciiLetter(b) || IsHighByte(b) {
          filtered := filtered + [b];
        }
      }
      assert filtered == before + XmlStepOutput(b, flag) && inTag == TagFlagAfter(b, flag);
      Advance(XmlFiltered(buf, false), before, XmlStepOutput(b, flag), XmlFiltered(buf[i..], flag), XmlFiltered(buf[i + 1..], inTag));
    }
    assert buf[|buf|..] == [];
  }

  /** The output keeps input bytes in their order and invents none. */
  lemma {:induction false} XmlFilteredIsSubsequence(buf: seq<byte>, inTag: bool)
    ensures IsSubsequence(XmlFiltered(buf, inTag), buf)
    decreases |buf|
  {
    if buf != [] {
      var rest := XmlFiltered(buf[1..], TagFlagAfter(buf[0], inTag));
      XmlFilteredIsSubsequence(buf[1..], TagFlagAfter(buf[0], inTag));
      assert buf == [buf[0]] + buf[1..];
      assert XmlFiltered(buf, inTag) == XmlStepOutput(buf[0], inTag) + rest;
      if XmlStepOutput(buf[0], inTag) == [] {
        assert XmlFiltered(buf, inTag) == rest;
        SubsequenceSkip(buf[0], rest, buf[1..]);
      } else {
        SubsequenceCons(buf[0], rest, buf[1..]);
      }
    }
  }

  /** Only ASCII letters and high bytes come out; in particular no `<` and no `>`. */
  lemma {:induction false} XmlFilteredAlphabet(buf: seq<byte>, inTag: bool)
    ensures forall x :: 0 <= x < |XmlFiltered(buf, inTag)| ==>
      IsAsciiLetter(XmlFiltered(buf, inTag)[x]) || IsHighByte(XmlFiltered(buf, inTag)[x])
    decreases |buf|
  {
    if buf != [] {
      XmlFilteredAlphabet(buf[1..], TagFlagAfter(buf[0], inTag));
    }
  }

  /** Scanning a concatenation is scanning the halves, carrying the flag across. */
  lemma {:induction false} XmlFilteredAppend(a: seq<byte>, b: seq<byte>, inTag: bool)
    ensures XmlFiltered(a + b, inTag) == XmlFiltered(a, inTag) + XmlFiltered(b, FinalTagFlag(a, inTag))
    decreases |a|
  {
    if a == [] {
      assert a + b == b;
    } else {
      assert (a + b)[0] == a[0];
      assert (a + b)[1..] == a[1..] + b;
      XmlFilteredAppend(a[1..], b, TagFlagAfter(a[0], inTag));
    }
  }

  /** Inside a tag, a stretch without `>` produces nothing and leaves the flag set. */
  lemma {:induction false} NothingInsideTag(inner: seq<byte>)
    requires TagClose !in inner
    ensures XmlFiltered(inner, true) == [] && FinalTagFlag(inner, true)
    decreases |inner|
  {
    if inner != [] {
      assert inner[0] != TagClose && TagClose !in inner[1..];
      NothingInsideTag(inner[1..]);
    }
  }

  /** A whole tag `<...>` is dropped, and scanning resumes outside it. */
  lemma TagIsDropped(before: seq<byte>, inner: seq<byte>, after: seq<byte>)
    requires TagClose !in inner
    ensures XmlFiltered(before + [TagOpen] + inner + [TagClose] + after, false)
         == XmlFiltered(before, false) + XmlFiltered(after, false)
  {
    var flag := FinalTagFlag(before, false);
    var tail := [TagClose] + after;
    assert before + [TagOpen] + inner + [TagClose] + after == before + ([TagOpen] + (inner + tail));
    XmlFilteredAppend(before, [TagOpen] + (inner + tail), false);
    assert ([TagOpen] + (inner + tail))[1..] == inner + tail;
    XmlFilteredAppend(inner, tail, true);
    NothingInsideTag(inner);
    assert tail[1..] == after;
  }

  /** An unterminated tag discards the rest of the buffer. */
  lemma UnterminatedTagDiscardsRest(before: seq<byte>, rest: seq<byte>)
    requires TagClose !in rest
    ensures XmlFiltered(before + [TagOpen] + rest, false) == XmlFiltered(before, false)
  {
    assert before + [TagOpen] + rest == before + ([TagOpen] + rest);
    XmlFilteredAppend(before, [TagOpen] + rest, false);
    assert ([TagOpen] + rest)[1..] == rest;
    NothingInsideTag(rest);
  }

  /** A buffer of letters and high bytes alone passes through unchanged. */
  lemma {:induction false} KeptBytesPassThrough(buf: seq<byte>)
    requires forall x :: 0 <= x < |buf| ==> IsAsciiLetter(buf[x]) || IsHighByte(buf[x])
    ensures XmlFiltered(buf, false) == buf
    decreases |buf|
  {
    if buf != [] {
      KeptBytesPassThrough(buf[1..]);
      assert buf == [buf[0]] + buf[1..];
    }
  }

  /** Stripping tags twice is stripping them once. */
  lemma RemoveXmlTagsIdempotent(buf: seq<byte>)
    ensures XmlFiltered(XmlFiltered(buf, false), false) == XmlFiltered(buf, false)
    ensures |XmlFiltered(buf, false)| <= |buf|
  {
    XmlFilteredAlphabet(buf, false);
    KeptBytesPassThrough(XmlFiltered(buf, false));
    XmlFilteredIsSubsequence(buf, false);
    SubsequenceIsNoLonger(XmlFiltered(buf, false), buf);
  }

  // ---------------------------------------------------------------------------
  // filter_international_words
  // ---------------------------------------------------------------------------

  /** The three byte classes of the international-words pattern; they are disjoint. */
  datatype ByteClass = Letters | HighBytes | Markers

  predicate InClass(b: byte, c: ByteClass) {
    match c
    case Letters => IsAsciiLetter(b)
    case HighBytes => IsHighByte(b)
    case Markers => IsMarker(b)
  }

  /** Length of the longest run of class-`c` bytes in `s` starting at index `from`. */
  function RunFrom(s: seq<byte>, from: nat, c: ByteClass): (n: nat)
    requires from <= |s|
    ensures from + n <= |s|
    ensures from + n < |s| ==> !InClass(s[from + n], c)
    decreases |s| - from
  {
    if from < |s| && InClass(s[from], c) then 1 + RunFrom(s, from + 1, c) else 0
  }

  /** Every byte of the run belongs to the class. */
  lemma {:induction false} RunFromInClass(s: seq<byte>, from: nat, c: ByteClass)
    requires from <= |s|
    ensures forall x :: from <= x < from + RunFrom(s, from, c) ==> InClass(s[x], c)
    decreases |s| - from
  {
    if from < |s| && InClass(s[from], c) {
      RunFromInClass(s, from + 1, c);
    }
  }

  /** A run is as long as any stretch of its class that starts where it starts. */
  lemma {:induction false} RunCovers(s: seq<byte>, from: nat, c: ByteClass, upto: nat)
    requires from <= upto <= |s|
    requires forall x :: from <= x < upto ==> InClass(s[x], c)
    ensures upto <= from + RunFrom(s, from, c)
    decreases upto - from
  {
    if from < upto {
      RunCovers(s, from + 1, c, upto);
    }
  }

  /** A stretch of the class that ends at a byte outside it is exactly the run. */
  lemma RunEndsAt(s: seq<byte>, from: nat, c: ByteClass, upto: nat)
    requires from <= upto <= |s|
    requires forall x :: from <= x < upto ==> InClass(s[x], c)
    requires upto < |s| ==> !InClass(s[upto], c)
    ensures from + RunFrom(s, from, c) == upto
  {
    RunCovers(s, from, c, upto);
    RunFromInClass(s, from, c);
  }

  /**
   * `w` splits at `i <= j <= k` into ASCII letters `w[..i]`, at least one high
   * byte `w[i..j]`, ASCII letters `w[j..k]`, then at most one marker.
   */
  predicate WordSplit(w: seq<byte>, i: int, j: int, k: int) {
    0 <= i < j <= k <= |w| &&
    (forall x :: 0 <= x < i ==> IsAsciiLetter(w[x])) &&
    (forall x :: i <= x < j ==> IsHighByte(w[x])) &&
    (forall x :: j <= x < k ==> IsAsciiLetter(w[x])) &&
    (k == |w| || (k + 1 == |w| && IsMarker(w[k])))
  }

  /** `w` is in the language of `[a-zA-Z]*[\x80-\xff]+[a-zA-Z]*[^a-zA-Z\x80-\xff]?`. */
  ghost predicate IsInternationalWord(w: seq<byte>) {
    exists i, j, k :: WordSplit(w, i, j, k)
  }

  /**
   * `INTERNATIONAL_WORDS_PATTERN.match(buf[from:])`: the index in `buf` where the
   * match anchored at `from` ends, if there is one. The three classes are
   * disjoint, so the greedy regex match never backtracks: all leading letters,
   * all following high bytes (at least one), all following letters, then one
   * marker if there is one.
   */
  function WordMatchEnd(buf: seq<byte>, from: nat): (m: Option<nat>)
    requires from <= |buf|
    ensures m.Some? ==> from < m.value <= |buf|
  {
    var a := from + RunFrom(buf, from, Letters);
    var h := RunFrom(buf, a, HighBytes);
    if h == 0 then None
    else
      var c := a + h + RunFrom(buf, a + h, Letters);
      Some(if c < |buf| && IsMarker(buf[c]) then c + 1 else c)
  }

  /** `WordSplit` of `buf[from..n]`, stated on `buf` itself. */
  predicate SplitAt(buf: seq<byte>, from: nat, n: nat, i: nat, j: nat, k: nat) {
    from <= from + i < from + j <= from + k <= n <= |buf| &&
    (forall x :: from <= x < from + i ==> InClass(buf[x], Letters)) &&
    (forall x :: from + i <= x < from + j ==> InClass(buf[x], HighBytes)) &&
    (forall x :: from + j <= x < from + k ==> InClass(buf[x], Letters)) &&
    (from + k == n || (from + k + 1 == n && IsMarker(buf[from + k])))
  }

  lemma WordSplitAt(buf: seq<byte>, from: nat, n: nat, i: int, j: int, k: int)
    requires from <= n <= |buf| && WordSplit(buf[from..n], i, j, k)
    ensures 0 <= i && SplitAt(buf, from, n, i, j, k)
  {
    var w := buf[from..n];
    forall x | from <= x < n ensures buf[x] == w[x - from] { }
  }

  /** The matcher's result in terms of the three runs it measures. */
  lemma MatchEndOfRuns(buf: seq<byte>, from: nat, a: nat, h: nat, c: nat)
    requires from <= |buf|
    requires a == from + RunFrom(buf, from, Letters)
    requires h == RunFrom(buf, a, HighBytes) && h > 0
    requires c == a + h + RunFrom(buf, a + h, Letters)
    ensures WordMatchEnd(buf, from) == Some(if c < |buf| && IsMarker(buf[c]) then c + 1 else c)
  {
  }

  /** Any split of `buf[from..n]` ends within the match the matcher returns. */
  lemma SplitWithinMatch(buf: seq<byte>, from: nat, n: nat, i: nat, j: nat, k: nat)
    requires SplitAt(buf, from, n, i, j, k)
    ensures WordMatchEnd(buf, from).Some? && n <= WordMatchEnd(buf, from).value
  {
    assert !InClass(buf[from + i], Letters);
    RunEndsAt(buf, from, Letters, from + i);
    var a := from + RunFrom(buf, from, Letters);
    assert a == from + i;
    var h := RunFrom(buf, a, HighBytes);
    RunCovers(buf, a, HighBytes, from + j);
    var c := a + h + RunFrom(buf, a + h, Letters);
    var m := if c < |buf| && IsMarker(buf[c]) then c + 1 else c;
    MatchEndOfRuns(buf, from, a, h, c);
    if from + j == a + h {
      RunCovers(buf, a + h, Letters, from + k);
      assert n <= m;
    } else {
      RunFromInClass(buf, a, HighBytes);
      assert InClass(buf[from + j], HighBytes);
      assert j == k && from + k == n;
      assert n <= m;
    }
  }

  /** What the matcher returns is a word of the pattern's language. */
  lemma MatchIsWord(buf: seq<byte>, from: nat)
    requires from <= |buf| && WordMatchEnd(buf, from).Some?
    ensures IsInternationalWord(buf[from..WordMatchEnd(buf, from).value])
  {
    var a := from + RunFrom(buf, from, Letters);
    var e := a + RunFrom(buf, a, HighBytes);
    var c := e + RunFrom(buf, e, Letters);
    RunFromInClass(buf, from, Letters);
    RunFromInClass(buf, a, HighBytes);
    RunFromInClass(buf, e, Letters);
    var w := buf[from..WordMatchEnd(buf, from).value];
    assert WordSplit(w, a - from, e - from, c - from);
  }

  /**
   * The hand-made matcher agrees with the regular expression: what it returns is
   * the end of the longest stretch from `from` in the pattern's language, and
   * `None` means no stretch from `from` is in it.
   */
  lemma WordMatchIsLongestMatch(buf: seq<byte>, from: nat)
    requires from <= |buf|
    ensures WordMatchEnd(buf, from).Some? ==>
      IsInternationalWord(buf[from..WordMatchEnd(buf, from).value]) &&
      forall n :: WordMatchEnd(buf, from).value < n <= |buf| ==> !IsInternationalWord(buf[from..n])
    ensures WordMatchEnd(buf, from).None? ==>
      forall n :: from <= n <= |buf| ==> !IsInternationalWord(buf[from..n])
  {
    var m := WordMatchEnd(buf, from);
    if m.Some? {
      MatchIsWord(buf, from);
    }
    forall n | from <= n <= |buf| && IsInternationalWord(buf[from..n])
      ensures m.Some? && n <= m.value
    {
      var i, j, k :| WordSplit(buf[from..n], i, j, k);
      WordSplitAt(buf, from, n, i, j, k);
      SplitWithinMatch(buf, from, n, i, j, k);
    }
  }

  /** Where the loop resumes after an unmatched byte: past it and the markers that follow. */
  function AfterMarkers(buf: seq<byte>, from: nat): (next: nat)
    requires from < |buf|
    ensures from < next <= |buf|
  {
    from + 1 + RunFrom(buf, from + 1, Markers)
  }

  /**
   * What `filter_international_words` outputs for `buf[from..]`: a matched word
   * is copied verbatim; where no word matches, one space is written and the
   * markers that follow are skipped.
   */
  function FilteredFrom(buf: seq<byte>, from: nat): seq<byte>
    requires from <= |buf|
    decreases |buf| - from
  {
    if from == |buf| then []
    else
      var m := WordMatchEnd(buf, from);
      if m.Some? then buf[from..m.value] + FilteredFrom(buf, m.value)
      else [Space] + FilteredFrom(buf, AfterMarkers(buf, from))
  }

  /** `CharSetProber.filter_international_words`: a `while` loop advancing `i`. */
  method FilterInternationalWords(buf: seq<byte>) returns (filtered: seq<byte>)
    ensures filtered == FilteredFrom(buf, 0)
  {
    filtered := [];
    var i := 0;
    ghost var total := FilteredFrom(buf, 0);
    while i < |buf|
      invariant 0 <= i <= |buf|
      invariant total == filtered + FilteredFrom(buf, i)
      decreases |buf| - i
    {
      var m := WordMatchEnd(buf, i);
      ghost var before, at := filtered, i;
      ghost var piece: seq<byte>;
      if m.Some? {
        piece := buf[i..m.value];
        filtered := filtered + buf[i..m.value];
        i := m.value;
        FilteredStepMatch(buf, at, i);
      } else {
        piece := [Space];
        filtered := filtered + [Space];
        i := SkipMarkers(buf, i + 1);
        FilteredStepNoMatch(buf, at, i);
      }
      Advance(total, before, piece, FilteredFrom(buf, at), FilteredFrom(buf, i));
    }
  }

  /** The inner loop of the filter: skips the markers that follow an unmatched byte. */
  method SkipMarkers(buf: seq<byte>, start: nat) returns (i: nat)
    requires start <= |buf|
    ensures i == start + RunFrom(buf, start, Markers)
  {
    i := start;
    while i < |buf| && IsMarker(buf[i])
      invariant start <= i <= |buf|
      invariant forall x :: start <= x < i ==> IsMarker(buf[x])
      decreases |buf| - i
    {
      i := i + 1;
    }
    RunEndsAt(buf, start, Markers, i);
  }

  /** Bookkeeping for the loop above: appending the next piece keeps the output's decomposition. */
  lemma Advance(total: seq<byte>, done: seq<byte>, piece: seq<byte>, rest: seq<byte>, remaining: seq<byte>)
    requires total == done + rest && rest == piece + remaining
    ensures total == (done + piece) + remaining
  {
  }

  /** One turn of the filter's loop: the output for `buf[from..]` is one piece, then the rest. */
  lemma {:induction false} FilteredStep(buf: seq<byte>, from: nat)
    requires from < |buf|
    ensures WordMatchEnd(buf, from).Some? ==>
      FilteredFrom(buf, from) == buf[from..WordMatchEnd(buf, from).value] + FilteredFrom(buf, WordMatchEnd(buf, from).value)
    ensures WordMatchEnd(buf, from).None? ==>
      FilteredFrom(buf, from) == [Space] + FilteredFrom(buf, AfterMarkers(buf, from))
  {
  }

  /** A turn of the loop that copies a match. */
  lemma {:induction false} FilteredStepMatch(buf: seq<byte>, from: nat, e: nat)
    requires from < |buf| && WordMatchEnd(buf, from) == Some(e)
    ensures FilteredFrom(buf, from) == buf[from..e] + FilteredFrom(buf, e)
  {
    FilteredStep(buf, from);
  }

  /** A turn of the loop that writes a space and skips the markers. */
  lemma {:induction false} FilteredStepNoMatch(buf: seq<byte>, from: nat, next: nat)
    requires from < |buf| && WordMatchEnd(buf, from) == None
    requires next == AfterMarkers(buf, from)
    ensures FilteredFrom(buf, from) == [Space] + FilteredFrom(buf, next)
  {
    FilteredStep(buf, from);
  }

  /** The high bytes of `s`, in order. */
  function HighBytesOf(s: seq<byte>): seq<byte>
    decreases |s|
  {
    if s == [] then [] else (if IsHighByte(s[0]) then [s[0]] else []) + HighBytesOf(s[1..])
  }

  lemma {:induction false} HighBytesOfAppend(a: seq<byte>, b: seq<byte>)
    ensures HighBytesOf(a + b) == HighBytesOf(a) + HighBytesOf(b)
    decreases |a|
  {
    if a == [] {
      assert a + b == b;
    } else {
      var head := if IsHighByte(a[0]) then [a[0]] else [];
      assert (a + b)[0] == a[0] && (a + b)[1..] == a[1..] + b;
      HighBytesOfAppend(a[1..], b);
      calc {
        HighBytesOf(a + b);
        head + HighBytesOf(a[1..] + b);
        head + (HighBytesOf(a[1..]) + HighBytesOf(b));
        (head + HighBytesOf(a[1..])) + HighBytesOf(b);
      }
    }
  }

  lemma {:induction false} NoHighBytesIn(s: seq<byte>)
    requires forall x :: 0 <= x < |s| ==> !IsHighByte(s[x])
    ensures HighBytesOf(s) == []
    decreases |s|
  {
    if s != [] {
      NoHighBytesIn(s[1..]);
    }
  }

  /** The filter never lengthens its input. */
  lemma {:induction false} FilteredNoLonger(buf: seq<byte>, from: nat)
    requires from <= |buf|
    ensures |FilteredFrom(buf, from)| <= |buf| - from
    decreases |buf| - from
  {
    if from < |buf| {
      match WordMatchEnd(buf, from)
      case Some(e) =>
        FilteredStepMatch(buf, from, e);
        FilteredNoLonger(buf, e);
      case None =>
        var next := AfterMarkers(buf, from);
        FilteredStepNoMatch(buf, from, next);
        FilteredNoLonger(buf, next);
    }
  }

  /** Where no word matches, the bytes the filter skips hold no high byte. */
  lemma SkippedBytesAreNotHigh(buf: seq<byte>, from: nat)
    requires from < |buf| && WordMatchEnd(buf, from) == None
    ensures HighBytesOf(buf[from..AfterMarkers(buf, from)]) == []
  {
    var skipped := buf[from..AfterMarkers(buf, from)];
    RunFromInClass(buf, from + 1, Markers);
    assert RunFrom(buf, from, Letters) > 0 || !InClass(buf[from], HighBytes);
    forall x | 0 <= x < |skipped| ensures !IsHighByte(skipped[x]) {
      assert skipped[x] == buf[from + x];
      if x > 0 {
        assert InClass(buf[from + x], Markers);
      }
    }
    NoHighBytesIn(skipped);
  }

  /** The high bytes of a suffix are those of its two parts. */
  lemma HighBytesOfSuffix(s: seq<byte>, from: nat, next: nat)
    requires from <= next <= |s|
    ensures HighBytesOf(s[from..]) == HighBytesOf(s[from..next]) + HighBytesOf(s[next..])
  {
    assert s[from..next] + s[next..] == s[from..];
    HighBytesOfAppend(s[from..next], s[next..]);
  }

  /** One turn of the filter keeps the high bytes, given that the turn's piece does. */
  lemma HighBytesStep(out: seq<byte>, piece: seq<byte>, rest: seq<byte>, buf: seq<byte>, from: nat, next: nat)
    requires from <= next <= |buf|
    requires out == piece + rest
    requires HighBytesOf(piece) == HighBytesOf(buf[from..next])
    requires HighBytesOf(rest) == HighBytesOf(buf[next..])
    ensures HighBytesOf(out) == HighBytesOf(buf[from..])
  {
    HighBytesOfAppend(piece, rest);
    HighBytesOfSuffix(buf, from, next);
  }

  /** Every high byte of the input survives, in order, and no other high byte appears. */
  lemma {:induction false} FilteredKeepsHighBytes(buf: seq<byte>, from: nat)
    requires from <= |buf|
    ensures HighBytesOf(FilteredFrom(buf, from)) == HighBytesOf(buf[from..])
    decreases |buf| - from
  {
    if from == |buf| {
      assert buf[from..] == [];
    } else {
      match WordMatchEnd(buf, from)
      case Some(next) =>
        FilteredStepMatch(buf, from, next);
        FilteredKeepsHighBytes(buf, next);
        HighBytesStep(FilteredFrom(buf, from), buf[from..next], FilteredFrom(buf, next), buf, from, next);
      case None =>
        var next := AfterMarkers(buf, from);
        FilteredStepNoMatch(buf, from, next);
        SkippedBytesAreNotHigh(buf, from);
        assert HighBytesOf([Space]) == [];
        FilteredKeepsHighBytes(buf, next);
        HighBytesStep(FilteredFrom(buf, from), [Space], FilteredFrom(buf, next), buf, from, next);
    }
  }

  /** Without any high byte, nothing but spaces comes out, and something comes out. */
  lemma {:induction false} FilteredWithoutHighBytes(buf: seq<byte>, from: nat)
    requires from <= |buf|
    requires forall x :: from <= x < |buf| ==> !IsHighByte(buf[x])
    ensures forall x :: 0 <= x < |FilteredFrom(buf, from)| ==> FilteredFrom(buf, from)[x] == Space
    ensures (|FilteredFrom(buf, from)| == 0) == (from == |buf|)
    decreases |buf| - from
  {
    if from < |buf| {
      NoHighByteNoMatch(buf, from);
      var next := AfterMarkers(buf, from);
      FilteredStepNoMatch(buf, from, next);
      FilteredWithoutHighBytes(buf, next);
      SpaceThenSpaces(FilteredFrom(buf, from), FilteredFrom(buf, next));
    }
  }

  /** No word can start where no high byte follows. */
  lemma NoHighByteNoMatch(buf: seq<byte>, from: nat)
    requires from <= |buf|
    requires forall x :: from <= x < |buf| ==> !IsHighByte(buf[x])
    ensures WordMatchEnd(buf, from).None?
  {
    var a := from + RunFrom(buf, from, Letters);
    assert a < |buf| ==> !InClass(buf[a], HighBytes);
  }

  lemma SpaceThenSpaces(out: seq<byte>, rest: seq<byte>)
    requires out == [Space] + rest
    requires forall x :: 0 <= x < |rest| ==> rest[x] == Space
    ensures forall x :: 0 <= x < |out| ==> out[x] == Space
  {
  }

  /** A buffer made only of high bytes is one word and comes out unchanged. */
  lemma AllHighBytesUnchanged(buf: seq<byte>)
    requires forall x :: 0 <= x < |buf| ==> IsHighByte(buf[x])
    ensures FilteredFrom(buf, 0) == buf
  {
    if buf != [] {
      assert !InClass(buf[0], Letters);
      assert RunFrom(buf, 0, Letters) == 0;
      RunCovers(buf, 0, HighBytes, |buf|);
      assert WordMatchEnd(buf, 0) == Some(|buf|);
      assert buf[0..|buf|] == buf;
    }
  }

  /**
   * A stretch of ASCII letters holds no word, so each letter is replaced by
   * its own space: a run of letters does not collapse into a single space.
   */
  lemma {:induction false} LettersBecomeOneSpaceEach(buf: seq<byte>, from: nat)
    requires from <= |buf|
    requires forall x :: from <= x < |buf| ==> IsAsciiLetter(buf[x])
    ensures FilteredFrom(buf, from) == seq(|buf| - from, _ => Space)
    decreases |buf| - from
  {
    if from < |buf| {
      assert FilteredFrom(buf, from) == [Space] + FilteredFrom(buf, from + 1) by {
        NoHighByteNoMatch(buf, from);
        assert RunFrom(buf, from + 1, Markers) == 0 by {
          if from + 1 < |buf| {
            assert !InClass(buf[from + 1], Markers);
          }
        }
        FilteredStepNoMatch(buf, from, from + 1);
      }
      LettersBecomeOneSpaceEach(buf, from + 1);
      SpacesGrow(|buf| - (from + 1));
    }
  }

  lemma SpacesGrow(n: nat)
    ensures [Space] + seq(n, _ => Space) == seq(n + 1, _ => Space)
  {
  }

  /** The ASCII word "ab" comes out as two spaces. */
  lemma AsciiWordBecomesTwoSpaces()
    ensures FilteredFrom([0x61, 0x62], 0) == [Space, Space]
  {
    LettersBecomeOneSpaceEach([0x61, 0x62], 0);
  }

  /**
   * Unlike the tag stripper, the word filter is not idempotent: "ab" gives
   * two spaces, and those two spaces give one.
   */
  lemma FilterIsNotIdempotent()
    ensures FilteredFrom([0x61, 0x62], 0) == [Space, Space]
    ensures FilteredFrom([Space, Space], 0) == [Space]
  {
    AsciiWordBecomesTwoSpaces();
    TwoSpacesBecomeOne();
  }

  /** Two spaces are one unmatched byte followed by one marker: a single space comes out. */
  lemma TwoSpacesBecomeOne()
    ensures FilteredFrom([Space, Space], 0) == [Space]
  {
    var sp: seq<byte> := [Space, Space];
    NoHighByteNoMatch(sp, 0);
    assert RunFrom(sp, 1, Markers) == 1 by {
      assert InClass(sp[1], Markers);
    }
    FilteredStepNoMatch(sp, 0, 2);
  }
}
