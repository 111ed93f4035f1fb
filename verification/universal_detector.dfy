/**
 * The orchestrator of chardet/universaldetector.py (the line numbers below
 * refer to it): a detection session that classifies the input seen so far,
 * forwards each chunk to its probers, and arbitrates their verdicts.
 *
 * The concrete probers are not part of this model. A prober is a value: its
 * kind and the chunks fed to it so far. What it reports (the state its last
 * `feed` returned, its confidence, its charset name and language) is given by
 * a `ProberBehaviour`, a parameter of the detector that is a function of
 * kind and history. Feeding a prober appends the chunk to its history.
 *
 * `Session` is the detector's state as a value; `FeedSession`, `CloseSession`
 * and `InitialSession` say what `feed`, `close` and `reset` do to it, and the
 * `UniversalDetector` class updates its fields in place and is proved to
 * follow them.
 */
module UniversalDetection {
  import opened Bytes
  import opened Enums

  type Chunk = seq<byte>

  /** The probers the detector creates. */
  datatype ProberKind =
    | Utf1632
    | Esc
    | Gb2312
    | EucJp
    | Sjis
    | EucKr
    | Latin1
    | MbcsGroup(filter: set<LanguageFamily>)
    | SbcsGroup

  /** A prober: what it is and every chunk it has been fed, oldest first. */
  datatype Prober = Prober(kind: ProberKind, fed: seq<Chunk>)

  /** The prober interface, as functions of a prober's kind and history. */
  datatype ProberBehaviour = ProberBehaviour(
    state: (ProberKind, seq<Chunk>) -> ProbingState,
    confidence: (ProberKind, seq<Chunk>) -> real,
    charsetName: (ProberKind, seq<Chunk>) -> string,
    language: (ProberKind, seq<Chunk>) -> Option<string>)

  /** A new prober has seen nothing. */
  function NewProber(kind: ProberKind): Prober {
    Prober(kind, [])
  }

  /** `prober.feed(chunk)`: the prober's history grows by the chunk. */
  function FeedOne(p: Prober, chunk: Chunk): Prober {
    p.(fed := p.fed + [chunk])
  }

  /** The state `feed` returned the last time this prober was fed. */
  function StateOf(b: ProberBehaviour, p: Prober): ProbingState {
    b.state(p.kind, p.fed)
  }

  function ConfidenceOf(b: ProberBehaviour, p: Prober): real {
    b.confidence(p.kind, p.fed)
  }

  /** The `result` dictionary: encoding, confidence and language. */
  datatype DetectionResult = DetectionResult(encoding: Option<string>, confidence: real, language: Option<string>)

  const NoResult := DetectionResult(None, 0.0, None)
  const Utf8SigResult := DetectionResult(Some("UTF-8-SIG"), 1.0, Some(""))
  const AsciiResult := DetectionResult(Some("ascii"), 1.0, Some(""))

  /** A prober's verdict, as the detector copies it into `result`. */
  function ResultOf(b: ProberBehaviour, p: Prober): DetectionResult {
    DetectionResult(Some(b.charsetName(p.kind, p.fed)), b.confidence(p.kind, p.fed), b.language(p.kind, p.fed))
  }

  const MinimumThreshold: real := 0.2

  /** The UTF-8 byte order mark (section 6 of RFC 3629). */
  const Utf8Bom: seq<byte> := [0xEF, 0xBB, 0xBF]

  /** A name with no ASCII capital letter: `str.lower()` leaves it as it is. */
  predicate NoAsciiCapital(s: string) {
    forall k :: 0 <= k < |s| ==> !('A' <= s[k] <= 'Z')
  }

  /**
   * The ISO-8859 names reported instead as their Windows code pages when
   * bytes 0x80..0x9F were seen. The keys are in lower case, so the lookup of
   * a lowered name can reach each of them.
   */
  function IsoWinMap(): (m: map<string, string>)
    ensures forall k :: k in m ==> NoAsciiCapital(k)
  {
    map[
    "iso-8859-1" := "Windows-1252",
    "iso-8859-2" := "Windows-1250",
    "iso-8859-5" := "Windows-1251",
    "iso-8859-6" := "Windows-1256",
    "iso-8859-7" := "Windows-1253",
    "iso-8859-8" := "Windows-1255",
    "iso-8859-9" := "Windows-1254",
    "iso-8859-13" := "Windows-1257"]
  }

  predicate StartsWithBom(chunk: Chunk) {
    |chunk| >= 3 && chunk[..3] == Utf8Bom
  }

  /** `HIGH_BYTE_DETECTOR.search`: some byte is in 0x80..0xFF. */
  predicate HasHighByte(s: seq<byte>) {
    exists x :: 0 <= x < |s| && s[x] >= 0x80
  }

  /** `ESC_DETECTOR.search`: an ESC byte, or the HZ shift `~{` (RFC 1843). */
  predicate HasEscMarker(s: seq<byte>) {
    exists x :: 0 <= x < |s| && (s[x] == 0x1B || (s[x] == 0x7E && x + 1 < |s| && s[x + 1] == 0x7B))
  }

  /** `WIN_BYTE_DETECTOR.search`: some byte is in 0x80..0x9F. */
  predicate HasWinByte(s: seq<byte>) {
    exists x :: 0 <= x < |s| && 0x80 <= s[x] <= 0x9F
  }

  /** The classification step of `feed`: it only ever leaves `PureAscii`, and a high byte wins over a marker. */
  function Classify(st: InputState, lastChar: seq<byte>, chunk: Chunk): (st': InputState)
    ensures st != PureAscii ==> st' == st
    ensures st == PureAscii ==>
      (st' == HighByte <==> HasHighByte(chunk)) &&
      (st' == EscAscii <==> !HasHighByte(chunk) && HasEscMarker(lastChar + chunk))
  {
    if st == PureAscii then
      if HasHighByte(chunk) then HighByte
      else if HasEscMarker(lastChar + chunk) then EscAscii
      else PureAscii
    else st
  }

  /** The charset probers `reset` installs for a language filter, in order. */
  function InitialProbers(filter: set<LanguageFamily>): seq<Prober> {
    var ps0: seq<Prober> := [];
    var ps1 := if ChineseSimplified in filter then ps0 + [NewProber(Gb2312)] else ps0;
    var ps2 := if Japanese in filter then ps1 + [NewProber(EucJp)] + [NewProber(Sjis)] else ps1;
    var ps3 := if Korean in filter then ps2 + [NewProber(EucKr)] else ps2;
    if NonCjk in filter then ps3 + [NewProber(Latin1)] else ps3
  }

  /** The installed probers have seen nothing, and there are none exactly when no filter bit asks for one. */
  lemma InitialProbersFresh(filter: set<LanguageFamily>)
    ensures forall k :: 0 <= k < |InitialProbers(filter)| ==> InitialProbers(filter)[k].fed == []
    ensures InitialProbers(filter) == [] <==>
      !(ChineseSimplified in filter || Japanese in filter || Korean in filter || NonCjk in filter)
  {
  }

  /** Each filter bit brings in its own probers and no other. */
  lemma InitialProbersMembers(filter: set<LanguageFamily>, kind: ProberKind)
    ensures NewProber(kind) in InitialProbers(filter) <==>
      (kind == Gb2312 && ChineseSimplified in filter) ||
      ((kind == EucJp || kind == Sjis) && Japanese in filter) ||
      (kind == EucKr && Korean in filter) ||
      (kind == Latin1 && NonCjk in filter)
  {
  }

  /** The probers installed on the first high-byte chunk when the list is empty. */
  function HighByteProbers(filter: set<LanguageFamily>): seq<Prober> {
    [NewProber(MbcsGroup(filter)), NewProber(SbcsGroup), NewProber(Latin1)]
  }

  /** What one pass of a prober loop leaves: the probers, and the index of the one that found it. */
  datatype FeedOutcome = FeedOutcome(probers: seq<Prober>, winner: Option<nat>)

  /**
   * The loop `for prober in ps: if prober.feed(chunk) == FOUND_IT: ... return`:
   * the probers up to the first one reporting `FoundIt` are fed, in order; the
   * later ones are not; with no `FoundIt`, every prober is fed.
   */
  predicate IsFeedOutcome(b: ProberBehaviour, ps: seq<Prober>, chunk: Chunk, out: FeedOutcome) {
    |out.probers| == |ps| &&
    match out.winner
    case Some(w) =>
      w < |ps| && StateOf(b, out.probers[w]) == FoundIt &&
      (forall k :: 0 <= k <= w ==> out.probers[k] == FeedOne(ps[k], chunk)) &&
      (forall k :: 0 <= k < w ==> StateOf(b, out.probers[k]) != FoundIt) &&
      (forall k :: w < k < |ps| ==> out.probers[k] == ps[k])
    case None =>
      (forall k :: 0 <= k < |ps| ==> out.probers[k] == FeedOne(ps[k], chunk)) &&
      (forall k :: 0 <= k < |ps| ==> StateOf(b, out.probers[k]) != FoundIt)
  }

  /** The prober loop as a recursive function; the first `FoundIt` wins. */
  function FeedInOrder(b: ProberBehaviour, ps: seq<Prober>, chunk: Chunk): (out: FeedOutcome)
    ensures |out.probers| == |ps|
    ensures out.winner.Some? ==> out.winner.value < |ps|
    decreases |ps|
  {
    if ps == [] then FeedOutcome([], None)
    else
      var p := FeedOne(ps[0], chunk);
      if StateOf(b, p) == FoundIt then FeedOutcome([p] + ps[1..], Some(0))
      else
        var rest := FeedInOrder(b, ps[1..], chunk);
        FeedOutcome([p] + rest.probers, if rest.winner.Some? then Some(rest.winner.value + 1) else None)
  }

  /** The recursive loop feeds exactly the probers up to the first `FoundIt`, as the loop does. */
  lemma {:induction false} FeedInOrderIsFeedOutcome(b: ProberBehaviour, ps: seq<Prober>, chunk: Chunk)
    ensures IsFeedOutcome(b, ps, chunk, FeedInOrder(b, ps, chunk))
    decreases |ps|
  {
    if ps != [] && StateOf(b, FeedOne(ps[0], chunk)) != FoundIt {
      FeedInOrderIsFeedOutcome(b, ps[1..], chunk);
    }
  }

  /** The loop's outcome is determined by the probers and the chunk. */
  lemma FeedOutcomeUnique(b: ProberBehaviour, ps: seq<Prober>, chunk: Chunk, o1: FeedOutcome, o2: FeedOutcome)
    requires IsFeedOutcome(b, ps, chunk, o1) && IsFeedOutcome(b, ps, chunk, o2)
    ensures o1 == o2
  {
    if o1.winner.Some? && o2.winner.Some? {
      var w1, w2 := o1.winner.value, o2.winner.value;
      if w1 < w2 {
        assert false;
      } else if w2 < w1 {
        assert false;
      }
      assert o1.probers == o2.probers;
    } else if o1.winner.Some? {
      assert false;
    } else if o2.winner.Some? {
      assert false;
    } else {
      assert o1.probers == o2.probers;
    }
  }

  /** The detector's state. */
  datatype Session = Session(
    result: DetectionResult,
    done: bool,
    gotData: bool,
    inputState: InputState,
    lastChar: seq<byte>,
    hasWinBytes: bool,
    utf1632: Prober,
    esc: Prober,
    charsetProbers: seq<Prober>)

  /** `reset`: a fresh session for the language filter; nothing is decided and no prober has seen data. */
  function InitialSession(filter: set<LanguageFamily>): (s: Session)
    ensures !s.done && !s.gotData && s.result.encoding.None? && s.inputState == PureAscii && !s.hasWinBytes
    ensures s.utf1632.fed == [] && s.esc.fed == []
    ensures forall k :: 0 <= k < |s.charsetProbers| ==> s.charsetProbers[k].fed == []
  {
    InitialProbersFresh(filter);
    Session(NoResult, false, false, PureAscii, [], false, NewProber(Utf1632), NewProber(Esc), InitialProbers(filter))
  }

  /** Lines 150-151: a chunk holding a byte 0x80..0x9F sets the flag. */
  function NoteWinBytes(s: Session, chunk: Chunk): Session {
    if HasWinByte(chunk) then s.(hasWinBytes := true) else s
  }

  /** Lines 129-136: the escape prober is fed; its `FoundIt` is recorded, and `feed` carries on. */
  function EscStep(b: ProberBehaviour, s: Session, chunk: Chunk): Session {
    var esc := FeedOne(s.esc, chunk);
    if StateOf(b, esc) == FoundIt then s.(esc := esc, result := ResultOf(b, esc), done := true)
    else s.(esc := esc)
  }

  /** Lines 138-143: the prober loop over the charset probers, installed first when there are none. */
  function HighBytePass(b: ProberBehaviour, filter: set<LanguageFamily>, s: Session, chunk: Chunk): FeedOutcome {
    FeedInOrder(b, if s.charsetProbers == [] then HighByteProbers(filter) else s.charsetProbers, chunk)
  }

  /** Lines 137-148 up to the return: the probers after the pass, and the winner's verdict when there is one. */
  function HighByteStep(b: ProberBehaviour, filter: set<LanguageFamily>, s: Session, chunk: Chunk): Session {
    var out := HighBytePass(b, filter, s, chunk);
    var s1 := s.(charsetProbers := out.probers);
    if out.winner.Some? then s1.(result := ResultOf(b, out.probers[out.winner.value]), done := true) else s1
  }

  /** The tail of `feed` once the classification is updated (lines 129-151). */
  function AfterClassification(b: ProberBehaviour, filter: set<LanguageFamily>, s: Session, chunk: Chunk): Session {
    if s.inputState == EscAscii then
      // no return after the escape prober's verdict: the window-byte check still runs
      NoteWinBytes(EscStep(b, s, chunk), chunk)
    else if s.inputState == HighByte then
      if HighBytePass(b, filter, s, chunk).winner.Some? then HighByteStep(b, filter, s, chunk)
      else NoteWinBytes(HighByteStep(b, filter, s, chunk), chunk)
    else NoteWinBytes(s, chunk)
  }

  /** Lines 121-151: the classification and the last byte are updated, then the tail runs. */
  function ClassifyAndDispatch(b: ProberBehaviour, filter: set<LanguageFamily>, s: Session, chunk: Chunk): Session
    requires |chunk| > 0
  {
    AfterClassification(b, filter,
      s.(inputState := Classify(s.inputState, s.lastChar, chunk), lastChar := chunk[|chunk| - 1..]), chunk)
  }

  /** `feed` after the early returns and the byte-order-mark check (lines 113-151). */
  function FeedProbersStep(b: ProberBehaviour, filter: set<LanguageFamily>, s: Session, chunk: Chunk): Session
    requires |chunk| > 0
  {
    var out := FeedInOrder(b, [s.utf1632, s.esc] + s.charsetProbers, chunk);
    var s1 := s.(utf1632 := out.probers[0], esc := out.probers[1], charsetProbers := out.probers[2..]);
    if out.winner.Some? then s1.(result := ResultOf(b, out.probers[out.winner.value]), done := true)
    else ClassifyAndDispatch(b, filter, s1, chunk)
  }

  /**
   * `feed(chunk)` on a session. A finished session and an empty chunk are
   * ignored; a verdict reached by `feed` always names an encoding.
   */
  function FeedSession(b: ProberBehaviour, filter: set<LanguageFamily>, s: Session, chunk: Chunk): (s': Session)
    ensures s.done || |chunk| == 0 ==> s' == s
    ensures !s.done && |chunk| > 0 ==> s'.gotData
    ensures s'.done && !s.done ==> s'.result.encoding.Some?
  {
    if s.done || |chunk| == 0 then s
    else if !s.gotData && StartsWithBom(chunk) then s.(gotData := true, result := Utf8SigResult, done := true)
    else FeedProbersStep(b, filter, s.(gotData := true), chunk)
  }

  /** Several calls of `feed`, in order. */
  function FeedAll(b: ProberBehaviour, filter: set<LanguageFamily>, s: Session, chunks: seq<Chunk>): Session
    decreases |chunks|
  {
    if chunks == [] then s else FeedAll(b, filter, FeedSession(b, filter, s, chunks[0]), chunks[1..])
  }

  /** `max(..., key=...)` over a non-empty list keeps the first of the largest. */
  predicate IsFirstMax(cs: seq<real>, i: nat) {
    i < |cs| && (forall k :: 0 <= k < |cs| ==> cs[k] <= cs[i]) && (forall k :: 0 <= k < i ==> cs[k] < cs[i])
  }

  function FirstMaxIndex(cs: seq<real>): (i: nat)
    requires |cs| > 0
    ensures IsFirstMax(cs, i)
    decreases |cs|
  {
    if |cs| == 1 then 0
    else
      var j := FirstMaxIndex(cs[..|cs| - 1]);
      if cs[|cs| - 1] > cs[j] then |cs| - 1 else j
  }

  /** The confidences of the probers, in order. */
  function ConfidencesOf(b: ProberBehaviour, ps: seq<Prober>): (cs: seq<real>)
    ensures |cs| == |ps| && forall k :: 0 <= k < |ps| ==> cs[k] == ConfidenceOf(b, ps[k])
    decreases |ps|
  {
    if ps == [] then [] else [ConfidenceOf(b, ps[0])] + ConfidencesOf(b, ps[1..])
  }

  /** `str.lower()` on the ASCII letters of a name. */
  function LowerAscii(s: string): (t: string)
    ensures |t| == |s|
    ensures forall k :: 0 <= k < |s| ==>
      t[k] == (if 'A' <= s[k] <= 'Z' then (s[k] as int + 32) as char else s[k])
    decreases |s|
  {
    if s == [] then []
    else [if 'A' <= s[0] <= 'Z' then (s[0] as int + 32) as char else s[0]] + LowerAscii(s[1..])
  }

  /** The name `close` reports: the name itself, or a Windows code page of the table when window bytes were seen. */
  function ReportedName(name: string, hasWinBytes: bool): (r: string)
    ensures !hasWinBytes ==> r == name
    ensures r == name || r in IsoWinMap().Values
  {
    if hasWinBytes && LowerAscii(name) in IsoWinMap() then IsoWinMap()[LowerAscii(name)] else name
  }

  /**
   * The arbitration of `close` in the high-byte state (lines 170-187): there
   * is a verdict exactly when some prober is above the threshold, and it then
   * carries the largest confidence; otherwise there is no result at all.
   */
  function Arbitrate(b: ProberBehaviour, probers: seq<Prober>, hasWinBytes: bool): (r: DetectionResult)
    requires |probers| > 0
    ensures r.encoding.Some? <==> exists k :: 0 <= k < |probers| && ConfidenceOf(b, probers[k]) > MinimumThreshold
    ensures r.encoding.None? ==> r == NoResult
    ensures r.encoding.Some? ==> forall k :: 0 <= k < |probers| ==> ConfidenceOf(b, probers[k]) <= r.confidence
  {
    var i := FirstMaxIndex(ConfidencesOf(b, probers));
    var best := probers[i];
    if ConfidenceOf(b, best) > MinimumThreshold then
      DetectionResult(Some(ReportedName(b.charsetName(best.kind, best.fed), hasWinBytes)),
                      ConfidenceOf(b, best), b.language(best.kind, best.fed))
    else NoResult
  }

  /**
   * `close()` on a session; the result it returns is the new session's
   * `result`. It changes nothing but `result` and `done`, leaves a finished
   * session alone, and finishes every session that is not pure ASCII.
   */
  function CloseSession(b: ProberBehaviour, s: Session): (s': Session)
    ensures s' == s.(result := s'.result, done := s'.done)
    ensures s.done ==> s' == s
    ensures s'.done <==> s.done || s.inputState != PureAscii
  {
    if s.done then s
    else if s.inputState == PureAscii then s.(result := AsciiResult)
    else if s.inputState == HighByte then
      s.(result := Arbitrate(b, s.charsetProbers + [s.utf1632], s.hasWinBytes), done := true)
    else s.(result := AsciiResult, done := true)
  }

  /** The appends of `reset` (lines 73-82): one or two probers per filter bit, in order. */
  method BuildCharsetProbers(filter: set<LanguageFamily>) returns (probers: seq<Prober>)
    ensures probers == InitialProbers(filter)
  {
    probers := [];
    if ChineseSimplified in filter {
      probers := probers + [NewProber(Gb2312)];
    }
    if Japanese in filter {
      probers := probers + [NewProber(EucJp)];
      probers := probers + [NewProber(Sjis)];
    }
    if Korean in filter {
      probers := probers + [NewProber(EucKr)];
    }
    if NonCjk in filter {
      probers := probers + [NewProber(Latin1)];
    }
  }

  /** `UniversalDetector`: the session's fields, updated in place. */
  class UniversalDetector {
    const langFilter: set<LanguageFamily>
    const behaviour: ProberBehaviour
    var result: DetectionResult
    var done: bool
    var gotData: bool
    var inputState: InputState
    var lastChar: seq<byte>
    var hasWinBytes: bool
    var utf1632Prober: Prober
    var escCharsetProber: Prober
    var charsetProbers: seq<Prober>

    /** The fields as a `Session` value. */
    function Snapshot(): Session
      reads this
    {
      Session(result, done, gotData, inputState, lastChar, hasWinBytes, utf1632Prober, escCharsetProber, charsetProbers)
    }

    /** `__init__`, which ends with `reset`. */
    constructor (filter: set<LanguageFamily>, b: ProberBehaviour)
      ensures langFilter == filter && behaviour == b
      ensures Snapshot() == InitialSession(filter)
    {
      langFilter := filter;
      behaviour := b;
      new;
      Reset();
    }

    /** `__init__` with its default filter, `LanguageFilter.ALL`. */
    constructor WithAllLanguages(b: ProberBehaviour)
      ensures langFilter == AllLanguages && behaviour == b
      ensures Snapshot() == InitialSession(AllLanguages)
    {
      langFilter := AllLanguages;
      behaviour := b;
      new;
      Reset();
    }

    /** `reset`: back to a fresh session; the charset probers follow the language filter. */
    method Reset()
      modifies this
      ensures Snapshot() == InitialSession(langFilter)
    {
      result := NoResult;
      done := false;
      gotData := false;
      inputState := PureAscii;
      lastChar := [];
      hasWinBytes := false;
      var probers := BuildCharsetProbers(langFilter);
      charsetProbers := probers;
      utf1632Prober := NewProber(Utf1632);
      escCharsetProber := NewProber(Esc);
    }

    /** The prober loop: feeds `ps` in order and stops at the first `FoundIt`. */
    method FeedProbers(ps: seq<Prober>, chunk: Chunk) returns (fed: seq<Prober>, winner: Option<nat>)
      ensures FeedOutcome(fed, winner) == FeedInOrder(behaviour, ps, chunk)
    {
      fed := ps;
      winner := None;
      var i := 0;
      while i < |ps|
        invariant 0 <= i <= |ps| && |fed| == |ps|
        invariant forall k :: 0 <= k < i ==> fed[k] == FeedOne(ps[k], chunk)
        invariant forall k :: 0 <= k < i ==> StateOf(behaviour, fed[k]) != FoundIt
        invariant forall k :: i <= k < |ps| ==> fed[k] == ps[k]
      {
        fed := fed[i := FeedOne(fed[i], chunk)];
        if StateOf(behaviour, fed[i]) == FoundIt {
          winner := Some(i);
          FeedInOrderIsFeedOutcome(behaviour, ps, chunk);
          FeedOutcomeUnique(behaviour, ps, chunk, FeedOutcome(fed, winner), FeedInOrder(behaviour, ps, chunk));
          return;
        }
        i := i + 1;
      }
      FeedInOrderIsFeedOutcome(behaviour, ps, chunk);
      FeedOutcomeUnique(behaviour, ps, chunk, FeedOutcome(fed, winner), FeedInOrder(behaviour, ps, chunk));
    }

    /** `feed(chunk)`: the early returns and the byte-order-mark check (lines 100-111). */
    method Feed(chunk: Chunk)
      modifies this
      ensures Snapshot() == FeedSession(behaviour, langFilter, old(Snapshot()), chunk)
    {
      if done {
        return;
      }
      if |chunk| == 0 {
        return;
      }
      if !gotData {
        gotData := true;
        if |chunk| >= 3 && chunk[..3] == Utf8Bom {
          result := Utf8SigResult;
          done := true;
          return;
        }
      }
      FeedAllProbers(chunk);
    }

    /** The rest of `feed`: every prober, then the classification (lines 113-151). */
    method FeedAllProbers(chunk: Chunk)
      requires |chunk| > 0
      modifies this
      ensures Snapshot() == FeedProbersStep(behaviour, langFilter, old(Snapshot()), chunk)
    {
      var fed, winner := FeedProbers([utf1632Prober, escCharsetProber] + charsetProbers, chunk);
      utf1632Prober, escCharsetProber, charsetProbers := fed[0], fed[1], fed[2..];
      if winner.Some? {
        result := ResultOf(behaviour, fed[winner.value]);
        done := true;
        return;
      }

      ClassifyInput(chunk);
    }

    /** The classification of the input so far, then the rest of `feed` (lines 121-151). */
    method ClassifyInput(chunk: Chunk)
      requires |chunk| > 0
      modifies this
      ensures Snapshot() == ClassifyAndDispatch(behaviour, langFilter, old(Snapshot()), chunk)
    {
      if inputState == PureAscii {
        if HasHighByte(chunk) {
          inputState := HighByte;
        } else if inputState == PureAscii && HasEscMarker(lastChar + chunk) {
          inputState := EscAscii;
        }
      }
      lastChar := chunk[|chunk| - 1..];
      FeedByInputState(chunk);
    }

    /** The rest of `feed`: the probers of the input state, then the window bytes (lines 129-151). */
    method FeedByInputState(chunk: Chunk)
      modifies this
      ensures Snapshot() == AfterClassification(behaviour, langFilter, old(Snapshot()), chunk)
    {
      if inputState == EscAscii {
        FeedEscProber(chunk);
      } else if inputState == HighByte {
        var found := FeedHighByteProbers(chunk);
        if found {
          return;
        }
      }
      if HasWinByte(chunk) {
        hasWinBytes := true;
      }
    }

    /** Lines 129-136: feeds the escape prober and records its verdict if it found the charset. */
    method FeedEscProber(chunk: Chunk)
      modifies this
      ensures Snapshot() == EscStep(behaviour, old(Snapshot()), chunk)
    {
      escCharsetProber := FeedOne(escCharsetProber, chunk);
      if StateOf(behaviour, escCharsetProber) == FoundIt {
        result := ResultOf(behaviour, escCharsetProber);
        done := true;
      }
    }

    /** Lines 137-148: installs the high-byte probers if there are none, runs the prober loop over them. */
    method FeedHighByteProbers(chunk: Chunk) returns (found: bool)
      modifies this
      ensures found <==> HighBytePass(behaviour, langFilter, old(Snapshot()), chunk).winner.Some?
      ensures Snapshot() == HighByteStep(behaviour, langFilter, old(Snapshot()), chunk)
    {
      if charsetProbers == [] {
        charsetProbers := HighByteProbers(langFilter);
      }
      var fed, winner := FeedProbers(charsetProbers, chunk);
      charsetProbers := fed;
      found := winner.Some?;
      if found {
        result := ResultOf(behaviour, fed[winner.value]);
        done := true;
      }
    }

    /** `close()`: the final verdict, which is also left in `result`. */
    method Close() returns (r: DetectionResult)
      modifies this
      ensures Snapshot() == CloseSession(behaviour, old(Snapshot()))
      ensures r == result
    {
      if done {
        return result;
      }
      if inputState == PureAscii {
        result := AsciiResult;
        return result;
      }
      if inputState == HighByte {
        var probers := charsetProbers + [utf1632Prober];
        var confidences := ConfidencesOf(behaviour, probers);
        var best := probers[FirstMaxIndex(confidences)];
        if ConfidenceOf(behaviour, best) > MinimumThreshold {
          var charsetName := behaviour.charsetName(best.kind, best.fed);
          var lowerCharsetName := LowerAscii(charsetName);
          if hasWinBytes && lowerCharsetName in IsoWinMap() {
            charsetName := IsoWinMap()[lowerCharsetName];
          }
          result := DetectionResult(Some(charsetName), ConfidenceOf(behaviour, best), behaviour.language(best.kind, best.fed));
        } else {
          result := NoResult;
        }
      } else if inputState == EscAscii {
        result := AsciiResult;
      }
      done := true;
      r := result;
    }
  }
}
