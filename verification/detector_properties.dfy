/**
 * What `feed` and `close` promise, stated on the session model that the
 * `UniversalDetector` class is proved to follow. Line numbers refer to
 * chardet/universaldetector.py.
 */
module DetectorProperties {
  import opened Bytes
  import opened Enums
  import opened UniversalDetection

  /** Every prober `feed` runs through its first loop, in order. */
  function AllProbers(s: Session): (ps: seq<Prober>)
    ensures |ps| == |s.charsetProbers| + 2 && ps[0] == s.utf1632 && ps[1] == s.esc
    ensures forall k :: 0 <= k < |s.charsetProbers| ==> ps[k + 2] == s.charsetProbers[k]
  {
    [s.utf1632, s.esc] + s.charsetProbers
  }

  /** A behaviour in which no prober ever reports `FoundIt`. */
  ghost predicate NeverFinds(b: ProberBehaviour) {
    forall k, h :: b.state(k, h) != FoundIt
  }

  /** `feed` reaches its prober loop: not done, a non-empty chunk, and no byte-order mark to act on. */
  predicate ReachesProbers(s: Session, chunk: Chunk) {
    !s.done && |chunk| > 0 && (s.gotData || !StartsWithBom(chunk))
  }

  /** Lines 106-111: the first data starting with EF BB BF is UTF-8-SIG, and no prober sees it. */
  lemma BomShortCircuit(b: ProberBehaviour, filter: set<LanguageFamily>, s: Session, chunk: Chunk)
    requires !s.done && !s.gotData
    requires |chunk| >= 3 && chunk[0] == 0xEF && chunk[1] == 0xBB && chunk[2] == 0xBF
    ensures FeedSession(b, filter, s, chunk) == s.(gotData := true, result := Utf8SigResult, done := true)
    ensures Utf8SigResult.encoding == Some("UTF-8-SIG") && Utf8SigResult.confidence == 1.0
  {
    assert chunk[..3] == Utf8Bom;
  }

  /** The session after `feed`'s first loop found a winner, or after the classification otherwise. */
  lemma FeedProbersStepShape(b: ProberBehaviour, filter: set<LanguageFamily>, s: Session, chunk: Chunk)
    requires |chunk| > 0
    ensures var out := FeedInOrder(b, AllProbers(s), chunk);
      var s' := FeedProbersStep(b, filter, s, chunk);
      AllProbers(s') == out.probers || !out.winner.Some?
  {
    var out := FeedInOrder(b, AllProbers(s), chunk);
    assert [out.probers[0], out.probers[1]] + out.probers[2..] == out.probers;
  }

  /**
   * Lines 113-119: when prober `w` is the first of the loop to report
   * `FoundIt`, its verdict is the result, `done` is set, the probers up to
   * `w` are fed, the later ones are not, and nothing else changes.
   */
  lemma FirstFoundItWins(b: ProberBehaviour, filter: set<LanguageFamily>, s: Session, chunk: Chunk, w: nat)
    requires ReachesProbers(s, chunk)
    requires w < |AllProbers(s)| && StateOf(b, FeedOne(AllProbers(s)[w], chunk)) == FoundIt
    requires forall k :: 0 <= k < w ==> StateOf(b, FeedOne(AllProbers(s)[k], chunk)) != FoundIt
    ensures var s' := FeedSession(b, filter, s, chunk);
      s'.done && s'.gotData && s'.result == ResultOf(b, FeedOne(AllProbers(s)[w], chunk)) &&
      s'.inputState == s.inputState && s'.lastChar == s.lastChar && s'.hasWinBytes == s.hasWinBytes &&
      |AllProbers(s')| == |AllProbers(s)| &&
      (forall k :: 0 <= k <= w ==> AllProbers(s')[k] == FeedOne(AllProbers(s)[k], chunk)) &&
      (forall k :: w < k < |AllProbers(s)| ==> AllProbers(s')[k] == AllProbers(s)[k])
  {
    var ps := AllProbers(s);
    var out := FeedInOrder(b, ps, chunk);
    FeedInOrderIsFeedOutcome(b, ps, chunk);
    assert out.winner == Some(w) by {
      if out.winner.None? {
        assert false;
      } else if out.winner.value < w {
        assert false;
      } else if out.winner.value > w {
        assert false;
      }
    }
    FeedProbersStepShape(b, filter, s.(gotData := true), chunk);
  }

  /**
   * Lines 113-127: when no prober of the first loop reports `FoundIt`, all of
   * them are fed, the input state is classified and the last byte is kept.
   */
  lemma NoFoundItClassifies(b: ProberBehaviour, filter: set<LanguageFamily>, s: Session, chunk: Chunk)
    requires ReachesProbers(s, chunk)
    requires forall k :: 0 <= k < |AllProbers(s)| ==> StateOf(b, FeedOne(AllProbers(s)[k], chunk)) != FoundIt
    ensures var s' := FeedSession(b, filter, s, chunk);
      s'.gotData && s'.inputState == Classify(s.inputState, s.lastChar, chunk) &&
      s'.lastChar == [chunk[|chunk| - 1]] &&
      s'.utf1632 == FeedOne(s.utf1632, chunk)
  {
    var ps := AllProbers(s);
    var out := FeedInOrder(b, ps, chunk);
    FeedInOrderIsFeedOutcome(b, ps, chunk);
    assert out.winner.None? by {
      if out.winner.Some? {
        assert false;
      }
    }
    assert out.probers[0] == FeedOne(s.utf1632, chunk);
  }

  /** With a behaviour that never finds, the prober loop has no winner and feeds every prober. */
  lemma NoWinnerWhenNeverFinds(b: ProberBehaviour, ps: seq<Prober>, chunk: Chunk)
    requires NeverFinds(b)
    ensures FeedInOrder(b, ps, chunk).winner.None?
    ensures forall k :: 0 <= k < |ps| ==> FeedInOrder(b, ps, chunk).probers[k] == FeedOne(ps[k], chunk)
  {
    FeedInOrderIsFeedOutcome(b, ps, chunk);
    var out := FeedInOrder(b, ps, chunk);
    if out.winner.Some? {
      assert false;
    }
  }

  /**
   * A `feed` in which no prober finds anything: the session is not done, the
   * result is untouched, and the classification, last byte and window-byte
   * flag are updated as lines 121-151 say.
   */
  lemma FeedWithoutVerdict(b: ProberBehaviour, filter: set<LanguageFamily>, s: Session, chunk: Chunk)
    requires NeverFinds(b) && ReachesProbers(s, chunk)
    ensures var s' := FeedSession(b, filter, s, chunk);
      !s'.done && s'.gotData && s'.result == s.result &&
      s'.inputState == Classify(s.inputState, s.lastChar, chunk) &&
      s'.lastChar == [chunk[|chunk| - 1]] &&
      s'.hasWinBytes == (s.hasWinBytes || HasWinByte(chunk))
  {
    var s0 := s.(gotData := true);
    NoWinnerWhenNeverFinds(b, AllProbers(s0), chunk);
    var out := FeedInOrder(b, AllProbers(s0), chunk);
    var s1 := s0.(utf1632 := out.probers[0], esc := out.probers[1], charsetProbers := out.probers[2..]);
    var s2 := s1.(inputState := Classify(s.inputState, s.lastChar, chunk), lastChar := chunk[|chunk| - 1..]);
    NoWinnerWhenNeverFinds(b, if s2.charsetProbers == [] then HighByteProbers(filter) else s2.charsetProbers, chunk);
    assert StateOf(b, FeedOne(s2.esc, chunk)) != FoundIt;
  }

  /**
   * Lines 121-125: the input state only ever leaves `PureAscii`, to
   * `HighByte` on a byte 0x80..0xFF and to `EscAscii` on an escape marker.
   */
  lemma FeedOnlyLeavesPureAscii(b: ProberBehaviour, filter: set<LanguageFamily>, s: Session, chunk: Chunk)
    ensures var s' := FeedSession(b, filter, s, chunk);
      (s.inputState != PureAscii ==> s'.inputState == s.inputState) &&
      (s.inputState == PureAscii && s'.inputState == HighByte ==> HasHighByte(chunk)) &&
      (s.inputState == PureAscii && s'.inputState == EscAscii ==>
         !HasHighByte(chunk) && HasEscMarker(s.lastChar + chunk))
  {
  }

  /** Once the input is classified as not pure ASCII, no sequence of `feed`s changes it. */
  lemma {:induction false} InputStateIsFinal(b: ProberBehaviour, filter: set<LanguageFamily>, s: Session, chunks: seq<Chunk>)
    requires s.inputState != PureAscii
    ensures FeedAll(b, filter, s, chunks).inputState == s.inputState
    decreases |chunks|
  {
    if chunks != [] {
      FeedOnlyLeavesPureAscii(b, filter, s, chunks[0]);
      InputStateIsFinal(b, filter, FeedSession(b, filter, s, chunks[0]), chunks[1..]);
    }
  }

  /** The session `feed` hands to its state-dependent part (line 129): all probers fed once, input classified. */
  function Classified(b: ProberBehaviour, s: Session, chunk: Chunk): (s2: Session)
    requires |chunk| > 0
    ensures s2.inputState == Classify(s.inputState, s.lastChar, chunk) && s2.lastChar == [chunk[|chunk| - 1]]
  {
    var out := FeedInOrder(b, AllProbers(s), chunk);
    s.(gotData := true, utf1632 := out.probers[0], esc := out.probers[1], charsetProbers := out.probers[2..],
       inputState := Classify(s.inputState, s.lastChar, chunk), lastChar := chunk[|chunk| - 1..])
  }

  /**
   * `feed` reaches the window-byte check of line 150: no prober of the first
   * loop found the charset, and in `HighByte` none of the second loop did.
   * A `FoundIt` of the escape prober does not prevent it.
   */
  predicate ReachesWinByteCheck(b: ProberBehaviour, filter: set<LanguageFamily>, s: Session, chunk: Chunk) {
    ReachesProbers(s, chunk) && FeedInOrder(b, AllProbers(s), chunk).winner.None? &&
    var s2 := Classified(b, s, chunk);
    !(s2.inputState == HighByte && HighBytePass(b, filter, s2, chunk).winner.Some?)
  }

  /** The path from the first loop to the tail that follows the input state. */
  lemma FeedReachesTail(b: ProberBehaviour, filter: set<LanguageFamily>, s: Session, chunk: Chunk)
    requires ReachesProbers(s, chunk) && FeedInOrder(b, AllProbers(s), chunk).winner.None?
    ensures FeedSession(b, filter, s, chunk) == AfterClassification(b, filter, Classified(b, s, chunk), chunk)
  {
  }

  /**
   * Lines 150-151: the window-byte flag is set only by a chunk holding a byte
   * 0x80..0x9F; when `feed` reaches line 150 it is set by such a chunk, and
   * when `feed` returns earlier it is left as it was. It never reverts.
   */
  lemma WinBytesFlag(b: ProberBehaviour, filter: set<LanguageFamily>, s: Session, chunk: Chunk)
    ensures var s' := FeedSession(b, filter, s, chunk);
      (s.hasWinBytes ==> s'.hasWinBytes) &&
      (s'.hasWinBytes ==> s.hasWinBytes || HasWinByte(chunk)) &&
      (ReachesWinByteCheck(b, filter, s, chunk) ==> s'.hasWinBytes == (s.hasWinBytes || HasWinByte(chunk))) &&
      (!ReachesWinByteCheck(b, filter, s, chunk) ==> s'.hasWinBytes == s.hasWinBytes)
  {
    if ReachesProbers(s, chunk) && FeedInOrder(b, AllProbers(s), chunk).winner.None? {
      FeedReachesTail(b, filter, s, chunk);
    }
  }

  /**
   * Lines 132-136 and 150-151: in `EscAscii`, a `FoundIt` of the escape
   * prober records its verdict and ends the session, yet `feed` goes on to
   * the window-byte check.
   */
  lemma EscVerdictStillChecksWinBytes(b: ProberBehaviour, filter: set<LanguageFamily>, s: Session, chunk: Chunk)
    requires ReachesProbers(s, chunk) && s.inputState == EscAscii
    requires FeedInOrder(b, AllProbers(s), chunk).winner.None?
    requires StateOf(b, FeedOne(Classified(b, s, chunk).esc, chunk)) == FoundIt
    ensures var s' := FeedSession(b, filter, s, chunk);
      s'.done && s'.result == ResultOf(b, FeedOne(Classified(b, s, chunk).esc, chunk)) &&
      s'.hasWinBytes == (s.hasWinBytes || HasWinByte(chunk))
  {
    FeedReachesTail(b, filter, s, chunk);
  }

  /** Over any number of `feed`s the window-byte flag never reverts. */
  lemma {:induction false} WinBytesNeverRevert(b: ProberBehaviour, filter: set<LanguageFamily>, s: Session, chunks: seq<Chunk>)
    requires s.hasWinBytes
    ensures FeedAll(b, filter, s, chunks).hasWinBytes
    decreases |chunks|
  {
    if chunks != [] {
      WinBytesFlag(b, filter, s, chunks[0]);
      WinBytesNeverRevert(b, filter, FeedSession(b, filter, s, chunks[0]), chunks[1..]);
    }
  }

  /** A finished session ignores every further chunk. */
  lemma {:induction false} DoneIsFinal(b: ProberBehaviour, filter: set<LanguageFamily>, s: Session, chunks: seq<Chunk>)
    requires s.done
    ensures FeedAll(b, filter, s, chunks) == s
    decreases |chunks|
  {
    if chunks != [] {
      DoneIsFinal(b, filter, FeedSession(b, filter, s, chunks[0]), chunks[1..]);
    }
  }

  /**
   * What holds of every session `feed` can produce: `done` comes with a named
   * encoding, and before any data nothing has been classified.
   */
  ghost predicate FeedInvariant(s: Session) {
    (s.done ==> s.result.encoding.Some?) &&
    (!s.gotData ==> !s.done && s.inputState == PureAscii && s.lastChar == [])
  }

  /** A fresh session satisfies it, whatever the filter. */
  lemma InitialSessionSatisfiesInvariant(filter: set<LanguageFamily>)
    ensures FeedInvariant(InitialSession(filter))
    ensures InitialSession(filter).result == NoResult && !InitialSession(filter).done
  {
  }

  /** `feed` preserves it. */
  lemma FeedPreservesInvariant(b: ProberBehaviour, filter: set<LanguageFamily>, s: Session, chunk: Chunk)
    requires FeedInvariant(s)
    ensures FeedInvariant(FeedSession(b, filter, s, chunk))
  {
    if ReachesProbers(s, chunk) {
      var s0 := s.(gotData := true);
      var out := FeedInOrder(b, AllProbers(s0), chunk);
      if out.winner.None? {
        var s1 := s0.(utf1632 := out.probers[0], esc := out.probers[1], charsetProbers := out.probers[2..]);
        var s2 := s1.(inputState := Classify(s.inputState, s.lastChar, chunk), lastChar := chunk[|chunk| - 1..]);
        assert FeedSession(b, filter, s, chunk) == AfterClassification(b, filter, s2, chunk);
      }
    }
  }

  /** Any sequence of `feed`s preserves it. */
  lemma {:induction false} FeedAllPreservesInvariant(b: ProberBehaviour, filter: set<LanguageFamily>, s: Session, chunks: seq<Chunk>)
    requires FeedInvariant(s)
    ensures FeedInvariant(FeedAll(b, filter, s, chunks))
    decreases |chunks|
  {
    if chunks != [] {
      FeedPreservesInvariant(b, filter, s, chunks[0]);
      FeedAllPreservesInvariant(b, filter, FeedSession(b, filter, s, chunks[0]), chunks[1..]);
    }
  }

  /** Every byte of every chunk is below 0x80. */
  predicate AllAscii(chunks: seq<Chunk>) {
    forall i, x :: 0 <= i < |chunks| && 0 <= x < |chunks[i]| ==> chunks[i][x] < 0x80
  }

  /** ASCII chunks, with probers that never find, leave the session undecided and out of `HighByte`. */
  lemma {:induction false} AsciiStreamStaysUndecided(b: ProberBehaviour, filter: set<LanguageFamily>, s: Session, chunks: seq<Chunk>)
    requires NeverFinds(b) && !s.done && s.inputState != HighByte && AllAscii(chunks)
    ensures var s' := FeedAll(b, filter, s, chunks);
      !s'.done && s'.inputState != HighByte && s'.result == s.result
    decreases |chunks|
  {
    if chunks != [] {
      var c := chunks[0];
      assert !HasHighByte(c) by {
        if HasHighByte(c) {
          assert false;
        }
      }
      if |c| > 0 {
        assert !StartsWithBom(c) by {
          assert chunks[0][0] < 0x80;
          if StartsWithBom(c) {
            assert false;
          }
        }
        FeedWithoutVerdict(b, filter, s, c);
      }
      assert AllAscii(chunks[1..]) by {
        forall i, x | 0 <= i < |chunks[1..]| && 0 <= x < |chunks[1..][i]|
          ensures chunks[1..][i][x] < 0x80
        {
          assert chunks[1..][i] == chunks[i + 1];
        }
      }
      AsciiStreamStaysUndecided(b, filter, FeedSession(b, filter, s, c), chunks[1..]);
    }
  }

  /** A document of ASCII bytes whose probers never find closes as "ascii" with confidence 1.0. */
  lemma AsciiDocumentClosesAsAscii(b: ProberBehaviour, filter: set<LanguageFamily>, chunks: seq<Chunk>)
    requires NeverFinds(b) && AllAscii(chunks)
    ensures CloseSession(b, FeedAll(b, filter, InitialSession(filter), chunks)).result == AsciiResult
    ensures AsciiResult.encoding == Some("ascii") && AsciiResult.confidence == 1.0
  {
    AsciiStreamStaysUndecided(b, filter, InitialSession(filter), chunks);
  }

  /**
   * Lines 166-168 and 189-193: outside `HighByte`, `close` reports "ascii";
   * it sets `done` in `EscAscii` but not in `PureAscii`.
   */
  lemma CloseWithoutHighBytes(b: ProberBehaviour, s: Session)
    requires !s.done && s.inputState != HighByte
    ensures CloseSession(b, s) == s.(result := AsciiResult, done := s.inputState == EscAscii)
  {
  }

  /** Only one index is the first of the largest. */
  lemma FirstMaxUnique(cs: seq<real>, i: nat, j: nat)
    requires IsFirstMax(cs, i) && IsFirstMax(cs, j)
    ensures i == j
  {
    assert cs[i] <= cs[j] && cs[j] <= cs[i];
  }

  /**
   * Lines 170-192: in `HighByte`, `close` takes the first prober of largest
   * confidence among the charset probers and the UTF-16/32 prober; above the
   * threshold 0.2 it reports that prober's name (remapped to a Windows code
   * page when window bytes were seen), confidence and language, otherwise no
   * encoding; either way the session is done.
   */
  lemma CloseInHighByte(b: ProberBehaviour, s: Session, i: nat)
    requires !s.done && s.inputState == HighByte
    requires IsFirstMax(ConfidencesOf(b, s.charsetProbers + [s.utf1632]), i)
    ensures var ps := s.charsetProbers + [s.utf1632];
      var best := ps[i];
      var s' := CloseSession(b, s);
      s'.done &&
      (ConfidenceOf(b, best) > MinimumThreshold ==>
         s'.result == DetectionResult(Some(ReportedName(b.charsetName(best.kind, best.fed), s.hasWinBytes)),
                                      ConfidenceOf(b, best), b.language(best.kind, best.fed))) &&
      (ConfidenceOf(b, best) <= MinimumThreshold ==> s'.result == NoResult) &&
      (forall k :: 0 <= k < |ps| ==> ConfidenceOf(b, ps[k]) <= ConfidenceOf(b, best))
  {
    var ps := s.charsetProbers + [s.utf1632];
    var cs := ConfidencesOf(b, ps);
    FirstMaxUnique(cs, i, FirstMaxIndex(cs));
  }

  /** `close` decides, except in `PureAscii`; a result with no encoding has confidence 0 and no language. */
  ghost predicate ResultWellFormed(r: DetectionResult) {
    r.encoding.None? ==> r.confidence == 0.0 && r.language.None?
  }

  lemma CloseResultWellFormed(b: ProberBehaviour, s: Session)
    requires ResultWellFormed(s.result)
    ensures ResultWellFormed(CloseSession(b, s).result)
    ensures CloseSession(b, s).done || s.inputState == PureAscii
    ensures CloseSession(b, s).result.encoding.None? ==> s.inputState == HighByte || s.done
  {
  }

  /** The remap in action: any spelling of ISO-8859-13 is reported as Windows-1257 once window bytes were seen. */
  lemma Iso885913WithWinBytesIsWindows1257(name: string)
    requires LowerAscii(name) == "iso-8859-13"
    ensures ReportedName(name, true) == "Windows-1257"
    ensures ReportedName(name, false) == name
  {
  }

  /**
   * Lines 176-181: with window bytes, a name whose lower case is a key of the
   * table is reported as that key's entry; without them it is kept.
   */
  lemma IsoNameIsRemapped(name: string)
    requires LowerAscii(name) in IsoWinMap()
    ensures ReportedName(name, true) == IsoWinMap()[LowerAscii(name)]
    ensures ReportedName(name, false) == name
  {
  }

  /** Lines 176-181: a name whose lower case is not a key of the table is always kept. */
  lemma OtherNamesAreKept(name: string, hasWinBytes: bool)
    requires LowerAscii(name) !in IsoWinMap()
    ensures ReportedName(name, hasWinBytes) == name
  {
  }

  /** The prober's spelling "ISO-8859-1" lowers to the table's key. */
  lemma LowerIso88591()
    ensures LowerAscii("ISO-8859-1") == "iso-8859-1"
  {
    var t := LowerAscii("ISO-8859-1");
    assert t[0] == 'i' && t[1] == 's' && t[2] == 'o';
    assert t[3] == '-' && t[4] == '8' && t[5] == '8' && t[6] == '5';
    assert t[7] == '9' && t[8] == '-' && t[9] == '1';
    assert t == "iso-8859-1";
  }

  /** The remap as the prober reports the name: "ISO-8859-1" becomes "Windows-1252". */
  lemma Iso88591WithWinBytesIsWindows1252()
    ensures ReportedName("ISO-8859-1", true) == "Windows-1252"
  {
    LowerIso88591();
    var m := IsoWinMap();
    assert "iso-8859-1" in m && m["iso-8859-1"] == "Windows-1252";
    IsoNameIsRemapped("ISO-8859-1");
  }

  /** A name without capitals is its own lower case. */
  lemma LowerAsciiKeepsLowerCase(name: string)
    requires NoAsciiCapital(name)
    ensures LowerAscii(name) == name
  {
  }

  /** Lines 41 and 176-181: every name of the table is remapped to its Windows code page once window bytes were seen. */
  lemma EveryIsoNameIsRemapped(name: string)
    requires name in IsoWinMap()
    ensures ReportedName(name, true) == IsoWinMap()[name]
    ensures ReportedName(name, false) == name
  {
    LowerAsciiKeepsLowerCase(name);
  }

  /** `str.lower()` is idempotent on ASCII names. */
  lemma {:induction false} LowerAsciiIdempotent(s: string)
    ensures LowerAscii(LowerAscii(s)) == LowerAscii(s)
    decreases |s|
  {
    if s != [] {
      LowerAsciiIdempotent(s[1..]);
    }
  }

  /**
   * A byte-order mark split over two chunks is not recognised: only the first
   * non-empty chunk is checked for it.
   */
  lemma SplitBomNotRecognised(b: ProberBehaviour, filter: set<LanguageFamily>)
    requires NeverFinds(b)
    ensures FeedSession(b, filter, InitialSession(filter), [0xEF, 0xBB, 0xBF]).result == Utf8SigResult
    ensures var s' := FeedAll(b, filter, InitialSession(filter), [[0xEF], [0xBB, 0xBF]]);
      !s'.done && s'.result == NoResult && s'.inputState == HighByte
  {
    var s0 := InitialSession(filter);
    BomShortCircuit(b, filter, s0, [0xEF, 0xBB, 0xBF]);
    var c1: Chunk := [0xEF];
    var c2: Chunk := [0xBB, 0xBF];
    assert HasHighByte(c1) by { assert c1[0] >= 0x80; }
    FeedWithoutVerdict(b, filter, s0, c1);
    var s1 := FeedSession(b, filter, s0, c1);
    FeedWithoutVerdict(b, filter, s1, c2);
    assert [[0xEF], [0xBB, 0xBF]][1..] == [c2];
    assert FeedAll(b, filter, s0, [[0xEF], [0xBB, 0xBF]]) == FeedAll(b, filter, s1, [c2]);
  }

  /**
   * The classification depends on how the input is cut into chunks: ESC and
   * a high byte in one chunk give `HighByte`, but ESC first and the high byte
   * in a later chunk leave the session in `EscAscii`.
   */
  lemma ClassificationDependsOnChunking(b: ProberBehaviour, filter: set<LanguageFamily>)
    requires NeverFinds(b)
    ensures FeedAll(b, filter, InitialSession(filter), [[0x1B, 0x80]]).inputState == HighByte
    ensures FeedAll(b, filter, InitialSession(filter), [[0x1B], [0x80]]).inputState == EscAscii
  {
    var s0 := InitialSession(filter);
    var c: Chunk := [0x1B, 0x80];
    assert HasHighByte(c) by { assert c[1] >= 0x80; }
    FeedWithoutVerdict(b, filter, s0, c);
    assert [c][1..] == [];
    var c1: Chunk := [0x1B];
    var c2: Chunk := [0x80];
    assert !HasHighByte(c1);
    assert HasEscMarker(s0.lastChar + c1) by { assert (s0.lastChar + c1)[0] == 0x1B; }
    FeedWithoutVerdict(b, filter, s0, c1);
    var s1 := FeedSession(b, filter, s0, c1);
    assert [[0x1B], [0x80]][1..] == [c2];
    InputStateIsFinal(b, filter, s1, [c2]);
  }

  /** The HZ shift `~{` is found even when `~` ends one chunk and `{` starts the next. */
  lemma EscMarkerAcrossChunks(b: ProberBehaviour, filter: set<LanguageFamily>)
    requires NeverFinds(b)
    ensures !HasEscMarker([0x61, 0x7E]) && !HasEscMarker([0x7B, 0x62])
    ensures FeedAll(b, filter, InitialSession(filter), [[0x61, 0x7E], [0x7B, 0x62]]).inputState == EscAscii
  {
    var s0 := InitialSession(filter);
    var c1: Chunk := [0x61, 0x7E];
    var c2: Chunk := [0x7B, 0x62];
    assert !HasHighByte(c1) && !HasHighByte(c2);
    FeedWithoutVerdict(b, filter, s0, c1);
    var s1 := FeedSession(b, filter, s0, c1);
    assert s1.lastChar == [0x7E];
    assert HasEscMarker(s1.lastChar + c2) by {
      assert (s1.lastChar + c2)[0] == 0x7E && (s1.lastChar + c2)[1] == 0x7B;
    }
    FeedWithoutVerdict(b, filter, s1, c2);
    var s2 := FeedSession(b, filter, s1, c2);
    assert [[0x61, 0x7E], [0x7B, 0x62]][1..] == [c2];
    assert FeedAll(b, filter, s1, [c2]) == FeedAll(b, filter, s2, []);
  }

  /**
   * Lines 138-141: with a filter that installs no charset probers, the first
   * high-byte chunk brings in the multi-byte group (for that filter), the
   * single-byte group and Latin-1, and feeds them.
   */
  lemma HighByteInstallsGroupProbers(b: ProberBehaviour, filter: set<LanguageFamily>, s: Session, chunk: Chunk)
    requires NeverFinds(b) && ReachesProbers(s, chunk) && s.charsetProbers == []
    requires s.inputState != EscAscii && HasHighByte(chunk)
    ensures FeedSession(b, filter, s, chunk).inputState == HighByte
    ensures FeedSession(b, filter, s, chunk).charsetProbers ==
      [FeedOne(NewProber(MbcsGroup(filter)), chunk), FeedOne(NewProber(SbcsGroup), chunk), FeedOne(NewProber(Latin1), chunk)]
  {
    var s0 := s.(gotData := true);
    NoWinnerWhenNeverFinds(b, AllProbers(s0), chunk);
    NoWinnerWhenNeverFinds(b, HighByteProbers(filter), chunk);
  }

  /** Lines 38-40: a window byte is a high byte. */
  lemma WinByteIsHighByte(chunk: Chunk)
    ensures HasWinByte(chunk) ==> HasHighByte(chunk)
  {
  }

  /** Line 38: the high-byte search over two pieces is the search over either piece. */
  lemma HighByteSearchSplits(a: seq<byte>, c: seq<byte>)
    ensures HasHighByte(a + c) <==> HasHighByte(a) || HasHighByte(c)
  {
    if HasHighByte(a + c) {
      var x :| 0 <= x < |a + c| && (a + c)[x] >= 0x80;
      if x >= |a| {
        assert c[x - |a|] >= 0x80;
      } else {
        assert a[x] >= 0x80;
      }
    }
    if HasHighByte(a) {
      var x :| 0 <= x < |a| && a[x] >= 0x80;
      assert (a + c)[x] >= 0x80;
    }
    if HasHighByte(c) {
      var x :| 0 <= x < |c| && c[x] >= 0x80;
      assert (a + c)[|a| + x] >= 0x80;
    }
  }

  /** Line 39: an escape marker in either piece is found in the two pieces together. */
  lemma EscMarkerSearchGrows(a: seq<byte>, c: seq<byte>)
    ensures HasEscMarker(a) || HasEscMarker(c) ==> HasEscMarker(a + c)
  {
    if HasEscMarker(c) {
      var x :| 0 <= x < |c| && (c[x] == 0x1B || (c[x] == 0x7E && x + 1 < |c| && c[x + 1] == 0x7B));
      assert (a + c)[|a| + x] == c[x];
      if x + 1 < |c| {
        assert (a + c)[|a| + x + 1] == c[x + 1];
      }
    }
    if HasEscMarker(a) {
      var x :| 0 <= x < |a| && (a[x] == 0x1B || (a[x] == 0x7E && x + 1 < |a| && a[x + 1] == 0x7B));
      assert (a + c)[x] == a[x];
      if x + 1 < |a| {
        assert (a + c)[x + 1] == a[x + 1];
      }
    }
  }

  /**
   * Lines 113-119 and 132: in `EscAscii` the escape prober is fed each chunk
   * twice, once by the first loop and once more by the escape branch.
   */
  lemma EscProberFedTwice(b: ProberBehaviour, filter: set<LanguageFamily>, s: Session, chunk: Chunk)
    requires NeverFinds(b) && ReachesProbers(s, chunk) && s.inputState == EscAscii
    ensures FeedSession(b, filter, s, chunk).esc.fed == s.esc.fed + [chunk, chunk]
  {
    NoWinnerWhenNeverFinds(b, AllProbers(s), chunk);
  }
}
