/**
 * The character distribution analyser: two counters fed one decoded
 * character at a time, and a confidence computed from them.
 *
 * The frequency tables themselves are not part of this model: an analyser is
 * built from a lookup function (a character's frequency rank, or -1), the
 * size of the "frequent" part of the table and the typical distribution ratio
 * of the language. Confidences are `real`s.
 */
module CharDistribution {
  import opened Bytes

  const SureYes: real := 0.99
  const SureNo: real := 0.01
  const MinimumDataThreshold: int := 3

  /**
   * `get_confidence` over the counters. Too little data gives `SureNo`; an
   * input made only of frequent characters gives `SureYes`; otherwise the
   * ratio of frequent to rare characters, scaled by the typical ratio and
   * clamped at `SureYes`.
   */
  function Confidence(total: int, freq: int, ratio: real): (r: real)
    requires ratio > 0.0
    ensures (total <= 0 || freq <= MinimumDataThreshold) ==> r == SureNo
    ensures (total > 0 && freq > MinimumDataThreshold && total == freq) ==> r == SureYes
    ensures (total > 0 && freq > MinimumDataThreshold && total != freq) ==>
      r <= SureYes &&
      (r < SureYes ==> r * ((total - freq) as real * ratio) == freq as real) &&
      (r == SureYes && total > freq ==> freq as real >= SureYes * ((total - freq) as real * ratio))
    ensures 0 <= freq <= total ==> 0.0 < r <= SureYes
  {
    if total <= 0 || freq <= MinimumDataThreshold then SureNo
    else if total != freq then
      var q := freq as real / ((total - freq) as real * ratio);
      if q < SureYes then q else SureYes
    else SureYes
  }

  /** A frequent character fed past the data floor never lowers the confidence. */
  lemma FrequentCharNeverLowersConfidence(total: int, freq: int, ratio: real)
    requires ratio > 0.0 && MinimumDataThreshold < freq <= total
    ensures Confidence(total + 1, freq + 1, ratio) >= Confidence(total, freq, ratio)
  {
    if total != freq {
      var d := (total - freq) as real * ratio;
      assert d > 0.0;
      assert freq as real / d <= (freq + 1) as real / d;
    }
  }

  /** A rare character (one outside the frequent part of the table) never raises it. */
  lemma RareCharNeverRaisesConfidence(total: int, freq: int, ratio: real)
    requires ratio > 0.0 && 0 <= freq <= total
    ensures Confidence(total + 1, freq, ratio) <= Confidence(total, freq, ratio)
  {
    if total > 0 && freq > MinimumDataThreshold && total != freq {
      var d := (total - freq) as real * ratio;
      var d' := (total + 1 - freq) as real * ratio;
      assert 0.0 < d < d';
      assert freq as real / d' <= freq as real / d;
    }
  }

  /** The two counters of an analyser. */
  datatype Counts = Counts(total: int, freq: int)

  /** One call of `feed`, given the rank the lookup returned for the character. */
  function CountFeed(c: Counts, order: int, charLen: int, tableSize: int): (c': Counts)
    ensures charLen != 2 || order == -1 ==> c' == c
    ensures charLen == 2 && order != -1 ==>
      c'.total == c.total + 1 && (c'.freq == c.freq + 1 <==> order < tableSize) &&
      (c'.freq == c.freq <==> order >= tableSize)
  {
    if charLen == 2 && order != -1 then
      Counts(c.total + 1, if order < tableSize then c.freq + 1 else c.freq)
    else c
  }

  /** One fed character: the character's bytes and the length its decoder reported. */
  datatype FedChar = FedChar(bytes: seq<byte>, charLen: int)

  /** The counters after feeding `chars` in order to a freshly reset analyser. */
  function Tally(order: seq<byte> -> int, tableSize: int, chars: seq<FedChar>): Counts
    decreases |chars|
  {
    if chars == [] then Counts(0, 0)
    else
      var last := chars[|chars| - 1];
      CountFeed(Tally(order, tableSize, chars[..|chars| - 1]), order(last.bytes), last.charLen, tableSize)
  }

  /** Whether a fed character is counted at all, and whether it counts as frequent. */
  predicate Counted(order: seq<byte> -> int, ch: FedChar) {
    ch.charLen == 2 && order(ch.bytes) != -1
  }

  predicate Frequent(order: seq<byte> -> int, tableSize: int, ch: FedChar) {
    Counted(order, ch) && order(ch.bytes) < tableSize
  }

  /** How many of `chars` are counted at all. */
  function CountedIn(order: seq<byte> -> int, chars: seq<FedChar>): nat
    decreases |chars|
  {
    if chars == [] then 0
    else CountedIn(order, chars[..|chars| - 1]) + (if Counted(order, chars[|chars| - 1]) then 1 else 0)
  }

  /** How many of `chars` are counted as frequent. */
  function FrequentIn(order: seq<byte> -> int, tableSize: int, chars: seq<FedChar>): nat
    decreases |chars|
  {
    if chars == [] then 0
    else FrequentIn(order, tableSize, chars[..|chars| - 1]) + (if Frequent(order, tableSize, chars[|chars| - 1]) then 1 else 0)
  }

  /**
   * The counters count exactly the two-byte characters the table knows, and
   * among them the frequent ones; so `0 <= freq <= total <= |chars|`.
   */
  lemma {:induction false} TallyCounts(order: seq<byte> -> int, tableSize: int, chars: seq<FedChar>)
    ensures Tally(order, tableSize, chars) == Counts(CountedIn(order, chars), FrequentIn(order, tableSize, chars))
    ensures 0 <= FrequentIn(order, tableSize, chars) <= CountedIn(order, chars) <= |chars|
    decreases |chars|
  {
    if chars != [] {
      TallyCounts(order, tableSize, chars[..|chars| - 1]);
    }
  }

  /** `CharDistributionAnalysis`: the counters, updated in place. */
  class CharDistributionAnalysis {
    /** `get_order`: a character's rank in the frequency table, or -1 when it has none. */
    const getOrder: seq<byte> -> int
    const tableSize: int
    const typicalDistributionRatio: real
    var done: bool
    var totalChars: int
    var freqChars: int

    /** The counters are consistent and the ratio is usable as a divisor. */
    ghost predicate Valid()
      reads this
    {
      0 <= freqChars <= totalChars && typicalDistributionRatio > 0.0
    }

    /** `__init__` followed by `reset`. */
    constructor (lookup: seq<byte> -> int, size: int, ratio: real)
      requires ratio > 0.0
      ensures getOrder == lookup && tableSize == size && typicalDistributionRatio == ratio
      ensures !done && totalChars == 0 && freqChars == 0
      ensures Valid()
    {
      getOrder := lookup;
      tableSize := size;
      typicalDistributionRatio := ratio;
      done := false;
      totalChars := 0;
      freqChars := 0;
    }

    /** `reset`: clears the counters; the table, its size and the ratio are constants. */
    method Reset()
      requires typicalDistributionRatio > 0.0
      modifies this
      ensures !done && totalChars == 0 && freqChars == 0
      ensures Valid()
    {
      done := false;
      totalChars := 0;
      freqChars := 0;
    }

    /** `feed`: counts a two-byte character the table knows, and whether it is frequent. */
    method Feed(ch: seq<byte>, charLen: int)
      requires Valid()
      modifies this
      ensures Counts(totalChars, freqChars)
           == CountFeed(old(Counts(totalChars, freqChars)), getOrder(ch), charLen, tableSize)
      ensures done == old(done)
      ensures Valid()
    {
      if charLen == 2 {
        var order := getOrder(ch);
        if order != -1 {
          totalChars := totalChars + 1;
          if order < tableSize {
            freqChars := freqChars + 1;
          }
        }
      }
    }

    /** `get_confidence`: reads the counters and changes nothing. */
    function GetConfidence(): (r: real)
      reads this
      requires Valid()
      ensures 0.0 < r <= SureYes
      ensures r == Confidence(totalChars, freqChars, typicalDistributionRatio)
    {
      Confidence(totalChars, freqChars, typicalDistributionRatio)
    }
  }

  /** The frequency-table modules the analysers are built from. */
  datatype FrequencyTable = Big5Table | EucKrTable | EucTwTable | Gb2312Table | JisTable

  /** The concrete analysers; each only chooses a table. */
  datatype Analyser = EucTw | EucKr | Johab | Gb2312 | Big5 | Sjis | EucJp

  /** Which table, size and ratio each analyser's constructor installs. */
  function TableOf(a: Analyser): (t: FrequencyTable)
    ensures t == EucKrTable <==> a in {EucKr, Johab}
    ensures t == JisTable <==> a in {Sjis, EucJp}
  {
    match a
    case EucTw => EucTwTable
    case EucKr => EucKrTable
    case Johab => EucKrTable
    case Gb2312 => Gb2312Table
    case Big5 => Big5Table
    case Sjis => JisTable
    case EucJp => JisTable
  }

  /** Two analysers share their triple exactly when they are JOHAB/EUC-KR or SJIS/EUC-JP. */
  lemma SharedTables(a: Analyser, b: Analyser)
    ensures TableOf(a) == TableOf(b) <==>
      a == b || ({a, b} <= {EucKr, Johab}) || ({a, b} <= {Sjis, EucJp})
  {
  }

  /** The table triples, as supplied by the frequency-table modules. */
  datatype TableParams = TableParams(lookup: seq<byte> -> int, size: int, ratio: real)

  /** The subclass constructors: an analyser over the triple of its table. */
  method NewAnalyser(a: Analyser, tables: FrequencyTable -> TableParams) returns (d: CharDistributionAnalysis)
    requires tables(TableOf(a)).ratio > 0.0
    ensures fresh(d) && d.Valid()
    ensures d.getOrder == tables(TableOf(a)).lookup && d.tableSize == tables(TableOf(a)).size
    ensures d.typicalDistributionRatio == tables(TableOf(a)).ratio
    ensures d.totalChars == 0 && d.freqChars == 0 && !d.done
  {
    var p := tables(TableOf(a));
    d := new CharDistributionAnalysis(p.lookup, p.size, p.ratio);
  }
}
