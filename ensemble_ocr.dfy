/** `EnsembleOCR`: the outer arbiter. It fills named slots (`trocr`,
    `easyocr`, `tesseract`) with the text of each engine, drops the blank
    ones and keeps the value with the best "coarse" score. */
module EnsembleOcr {
  import opened Wrappers
  import opened Text
  import opened TextCleaner
  import opened Selection
  import opened OcrProcessor

  /** The `results` dict, as (key, value) pairs in insertion order. */
  type Slots = seq<(string, string)>

  /** The keys of a Python dict are pairwise different. */
  predicate DistinctKeys(slots: Slots) {
    forall i, j | 0 <= i < j < |slots| :: slots[i].0 != slots[j].0
  }

  // ---------------------------------------------------------------------
  // The blank filter of `choose_best_result`

  /** The positions, from `from` on, of the slots whose value is not blank,
      in increasing order. */
  function ValidPositions(cc: CharClasses, slots: Slots, from: nat): (ps: seq<nat>)
    requires from <= |slots|
    ensures forall i | 0 <= i < |ps| :: from <= ps[i] < |slots| && !IsBlank(cc, slots[ps[i]].1)
    ensures forall i, j | 0 <= i < j < |ps| :: ps[i] < ps[j]
    ensures forall p | from <= p < |slots| && !IsBlank(cc, slots[p].1) :: p in ps
    decreases |slots| - from
  {
    if from == |slots| then []
    else
      var rest := ValidPositions(cc, slots, from + 1);
      if IsBlank(cc, slots[from].1) then rest else [from] + rest
  }

  /** `{k: v for k, v in results.items() if v.strip()}`, in insertion order. */
  function ValidSlots(cc: CharClasses, slots: Slots): (valid: Slots)
    ensures |valid| == |ValidPositions(cc, slots, 0)|
  {
    var ps := ValidPositions(cc, slots, 0);
    seq(|ps|, i requires 0 <= i < |ps| => slots[ps[i]])
  }

  /** The filter keeps exactly the non-blank entries, each once, in
      insertion order: entry `i` of the result is the entry at the `i`-th
      non-blank position. */
  lemma ValidComplete(cc: CharClasses, slots: Slots)
    ensures var valid := ValidSlots(cc, slots);
      var ps := ValidPositions(cc, slots, 0);
      && (forall i | 0 <= i < |valid| :: valid[i] in slots && !IsBlank(cc, valid[i].1))
      && (forall p | 0 <= p < |slots| && !IsBlank(cc, slots[p].1) :: slots[p] in valid)
      && (forall i | 0 <= i < |valid| :: valid[i] == slots[ps[i]])
      && (forall i, j | 0 <= i < j < |valid| :: ps[i] < ps[j])
  {
    var valid := ValidSlots(cc, slots);
    var ps := ValidPositions(cc, slots, 0);
    forall p | 0 <= p < |slots| && !IsBlank(cc, slots[p].1) ensures slots[p] in valid {
      assert p in ps;
      var i :| 0 <= i < |ps| && ps[i] == p;
      assert valid[i] == slots[p];
    }
    forall i | 0 <= i < |valid| ensures valid[i] in slots && !IsBlank(cc, valid[i].1) {
      assert valid[i] == slots[ps[i]];
    }
  }

  /** Filtering keeps the keys pairwise different. */
  lemma ValidDistinct(cc: CharClasses, slots: Slots)
    requires DistinctKeys(slots)
    ensures DistinctKeys(ValidSlots(cc, slots))
  {
    var ps := ValidPositions(cc, slots, 0);
    var valid := ValidSlots(cc, slots);
    forall i, j | 0 <= i < j < |valid| ensures valid[i].0 != valid[j].0 {
      assert valid[i] == slots[ps[i]] && valid[j] == slots[ps[j]];
    }
  }

  // ---------------------------------------------------------------------
  // The "coarse" score

  /** The characters `special_chars` lists: ASCII punctuation. */
  const SpecialChars: string := "!\"#$%&'()*+,-./:;<=>?@[\\]^_`{|}~"

  /** The score `choose_best_result` gives one value: 10 for a stripped
      length in [3, 100] or 5 above 100, 15 for a Turkish letter, 10 for a
      digit, 10 when fewer than a tenth of the characters are special, and
      5 when `split()` finds a word. */
  function CoarseScore(cc: CharClasses, text: string): (score: int)
    ensures 0 <= score <= 50
  {
    var length := |Strip(cc, text)|;
    var specialCount := CountWhere(text, c => c in SpecialChars);
    (if 3 <= length <= 100 then 10 else if length > 100 then 5 else 0)
    + (if ContainsAny(text, TurkishLetters) then 15 else 0)
    + (if HasDigit(cc, text) then 10 else 0)
    // `special_count / len(text) < 0.1`, cross-multiplied
    + (if 10 * specialCount < |text| then 10 else 0)
    + (if !IsBlank(cc, text) then 5 else 0)
  }

  /** Every value that reaches the scoring is non-blank, so it earns the
      word bonus. */
  lemma CoarseScoreOfValid(cc: CharClasses, text: string)
    requires !IsBlank(cc, text)
    ensures 5 <= CoarseScore(cc, text)
  {
  }

  /** The coarse score as the key function `max` is given. */
  function CoarseScorer(cc: CharClasses): string -> int {
    t => CoarseScore(cc, t)
  }

  /** The body of the scoring loop of `choose_best_result`: `score` starts
      at 0 and each rule adds its bonus. */
  method ScoreText(cc: CharClasses, text: string) returns (score: int)
    ensures score == CoarseScore(cc, text)
  {
    score := 0;
    var length := |Strip(cc, text)|;
    if 3 <= length <= 100 {
      score := score + 10;
    } else if length > 100 {
      score := score + 5;
    }
    if ContainsAny(text, TurkishLetters) {
      score := score + 15;
    }
    if HasDigit(cc, text) {
      score := score + 10;
    }
    var specialCount := CountWhere(text, c => c in SpecialChars);
    if 10 * specialCount < |text| {
      score := score + 10;
    }
    if !IsBlank(cc, text) {
      score := score + 5;
    }
  }

  /** Entering `key := value` for the next slot keeps the entries of the
      earlier slots, whose keys differ from it. */
  lemma PutKeeps(valid: Slots, values: seq<int>, scores: map<string, int>, i: nat)
    requires DistinctKeys(valid) && |values| == |valid| && i < |valid|
    requires forall j | 0 <= j < i :: valid[j].0 in scores && scores[valid[j].0] == values[j]
    ensures var next := scores[valid[i].0 := values[i]];
      forall j | 0 <= j <= i :: valid[j].0 in next && next[valid[j].0] == values[j]
  {
    var next := scores[valid[i].0 := values[i]];
    forall j | 0 <= j < i ensures next[valid[j].0] == values[j] {
      assert valid[j].0 != valid[i].0;
    }
  }

  /** The scoring loop of `choose_best_result`: the `scores` dict maps each
      valid key to the coarse score of its value. */
  method ScoreSlots(cc: CharClasses, valid: Slots) returns (scores: map<string, int>)
    requires DistinctKeys(valid)
    ensures forall j | 0 <= j < |valid| ::
      valid[j].0 in scores && scores[valid[j].0] == CoarseScorer(cc)(valid[j].1)
  {
    ghost var values := seq(|valid|, j requires 0 <= j < |valid| => CoarseScore(cc, valid[j].1));
    scores := map[];
    for i := 0 to |valid|
      invariant forall j | 0 <= j < i :: valid[j].0 in scores && scores[valid[j].0] == values[j]
    {
      var score := ScoreText(cc, valid[i].1);
      assert score == values[i];
      PutKeeps(valid, values, scores, i);
      scores := scores[valid[i].0 := score];
    }
  }

  // ---------------------------------------------------------------------
  // Selection by score

  /** The scores of the valid slots, as the keys `max` compares. */
  function ScoresBy(valid: Slots, score: string -> int): (scores: seq<real>)
    ensures |scores| == |valid|
  {
    seq(|valid|, i requires 0 <= i < |valid| => score(valid[i].1) as real)
  }

  /** What `choose_best_result` returns for a given scoring: `""` when no
      slot is valid, the only valid value without scoring, and otherwise the
      value of the first valid key with the maximal score. */
  function ChoiceBy(cc: CharClasses, slots: Slots, score: string -> int): string {
    var ps := ValidPositions(cc, slots, 0);
    if |ps| == 0 then ""
    else if |ps| == 1 then slots[ps[0]].1
    else
      var valid := ValidSlots(cc, slots);
      valid[FirstMaxIndex(ScoresBy(valid, score))].1
  }

  /** `choose_best_result` with its coarse scoring. */
  function CoarseChoice(cc: CharClasses, slots: Slots): string {
    ChoiceBy(cc, slots, CoarseScorer(cc))
  }

  /** Slot `p` wins: its value is not blank, no valid value scores higher,
      and every earlier valid value scores lower. */
  ghost predicate IsWinnerBy(cc: CharClasses, slots: Slots, p: int, score: string -> int) {
    && 0 <= p < |slots| && !IsBlank(cc, slots[p].1)
    && (forall q | 0 <= q < |slots| && !IsBlank(cc, slots[q].1) :: score(slots[q].1) <= score(slots[p].1))
    && (forall q | 0 <= q < p && !IsBlank(cc, slots[q].1) :: score(slots[q].1) < score(slots[p].1))
  }

  /** A non-empty result is verbatim the value of a winning slot: ties go to
      the earliest valid key. */
  lemma ChoiceWins(cc: CharClasses, slots: Slots, score: string -> int)
    ensures var r := ChoiceBy(cc, slots, score);
      r == "" || exists p :: IsWinnerBy(cc, slots, p, score) && r == slots[p].1
  {
    var ps := ValidPositions(cc, slots, 0);
    if |ps| == 1 {
      var p := ps[0];
      forall q | 0 <= q < |slots| && !IsBlank(cc, slots[q].1) ensures q == p {
        assert q in ps;
      }
      assert IsWinnerBy(cc, slots, p, score);
    } else if |ps| > 1 {
      var p := ScoredWinner(cc, slots, score);
    }
  }

  /** With several valid values, the slot of the first maximal score wins. */
  lemma ScoredWinner(cc: CharClasses, slots: Slots, score: string -> int) returns (p: nat)
    requires |ValidPositions(cc, slots, 0)| > 1
    ensures IsWinnerBy(cc, slots, p, score)
    ensures ChoiceBy(cc, slots, score) == slots[p].1
  {
    var ps := ValidPositions(cc, slots, 0);
    var valid := ValidSlots(cc, slots);
    var scores := ScoresBy(valid, score);
    var k := FirstMaxIndex(scores);
    p := ps[k];
    assert valid[k] == slots[p];
    forall q | 0 <= q < |slots| && !IsBlank(cc, slots[q].1)
      ensures score(slots[q].1) <= score(slots[p].1)
      ensures q < p ==> score(slots[q].1) < score(slots[p].1)
    {
      assert q in ps;
      var m :| 0 <= m < |ps| && ps[m] == q;
      assert valid[m] == slots[q];
      assert scores[m] <= scores[k];
      if q < p {
        assert m < k;
        assert scores[m] < scores[k];
      }
    }
  }

  /** `choose_best_result` returns `""` exactly when every value is blank. */
  lemma ChoiceEmpty(cc: CharClasses, slots: Slots, score: string -> int)
    ensures ChoiceBy(cc, slots, score) == "" <==> forall p | 0 <= p < |slots| :: IsBlank(cc, slots[p].1)
  {
    var ps := ValidPositions(cc, slots, 0);
    if |ps| > 0 {
      ChoiceWins(cc, slots, score);
    }
  }

  /** A single valid value is returned as it is. */
  lemma ChoiceSingle(cc: CharClasses, slots: Slots, score: string -> int, p: nat)
    requires p < |slots| && !IsBlank(cc, slots[p].1)
    requires forall q | 0 <= q < |slots| && q != p :: IsBlank(cc, slots[q].1)
    ensures ChoiceBy(cc, slots, score) == slots[p].1
  {
    var ps := ValidPositions(cc, slots, 0);
    assert p in ps;
    assert forall i | 0 <= i < |ps| :: ps[i] == p;
  }

  // ---------------------------------------------------------------------
  // Slot filling

  /** `' '.join(texts)`. */
  function JoinSpace(texts: seq<string>): string {
    if texts == [] then ""
    else if |texts| == 1 then texts[0]
    else texts[0] + " " + JoinSpace(texts[1..])
  }

  /** A concatenation is blank exactly when both parts are. */
  lemma BlankConcat(cc: CharClasses, a: string, b: string)
    ensures IsBlank(cc, a + b) <==> IsBlank(cc, a) && IsBlank(cc, b)
  {
    if IsBlank(cc, a + b) {
      assert forall i | 0 <= i < |a| :: (a + b)[i] == a[i];
      assert forall i | 0 <= i < |b| :: (a + b)[|a| + i] == b[i];
    }
  }

  /** The joined detections are blank exactly when every detection is, so
      the `easyocr` slot survives the blank filter exactly when some
      detection is not blank. */
  lemma {:induction false} JoinSpaceBlank(cc: CharClasses, texts: seq<string>)
    requires cc.isSpace(' ')
    ensures IsBlank(cc, JoinSpace(texts)) <==> forall t | t in texts :: IsBlank(cc, t)
    decreases |texts|
  {
    if |texts| == 1 {
      assert texts[0] in texts;
    } else if |texts| > 1 {
      var rest := texts[1..];
      JoinSpaceBlank(cc, rest);
      BlankConcat(cc, texts[0] + " ", JoinSpace(rest));
      BlankConcat(cc, texts[0], " ");
      assert texts == [texts[0]] + rest;
      assert forall t | t in rest :: t in texts;
    }
  }

  /** The `easyocr` slot: the detections joined by spaces, or `""` when
      the reader raised. */
  function EasyOcrSlot(img: RegionReads): string {
    match img.easyocrTexts
    case None => ""
    case Some(texts) => JoinSpace(texts)
  }

  /** The `results` dict `extract_text_ensemble` fills. `trocr` holds what
      `extract_text` returned; `easyocr` exists only with a loaded reader;
      `tesseract` is always `""`, because `extract_with_tesseract` is not a
      method of `OCRProcessor` and the `AttributeError` is caught. */
  function EnsembleSlots(trocrText: string, readerLoaded: bool, img: RegionReads): (slots: Slots)
    ensures DistinctKeys(slots)
  {
    [("trocr", trocrText)]
    + (if readerLoaded then [("easyocr", EasyOcrSlot(img))] else [])
    + [("tesseract", "")]
  }

  /** The ensemble result is `""`, the TrOCR text or, with a loaded reader,
      the EasyOCR text; never the Tesseract slot's. */
  lemma EnsembleFromSlots(cc: CharClasses, trocrText: string, readerLoaded: bool, img: RegionReads,
                          score: string -> int)
    ensures var r := ChoiceBy(cc, EnsembleSlots(trocrText, readerLoaded, img), score);
      r == "" || r == trocrText || (readerLoaded && r == EasyOcrSlot(img))
  {
    var slots := EnsembleSlots(trocrText, readerLoaded, img);
    ChoiceWins(cc, slots, score);
    var r := ChoiceBy(cc, slots, score);
    if r != "" {
      var p :| IsWinnerBy(cc, slots, p, score) && r == slots[p].1;
      assert p < |slots| - 1 by {
        assert IsBlank(cc, slots[|slots| - 1].1);
      }
    }
  }

  /** Without a reader, the ensemble returns what `extract_text` returned:
      that text is cleaned, so it is blank only when it is `""`. */
  lemma EnsembleWithoutReader(cc: CharClasses, trocrText: string, img: RegionReads)
    requires Sound(cc) && IsClean(cc, trocrText)
    ensures CoarseChoice(cc, EnsembleSlots(trocrText, false, img)) == trocrText
  {
    var slots := EnsembleSlots(trocrText, false, img);
    if IsBlank(cc, trocrText) {
      ChoiceEmpty(cc, slots, CoarseScorer(cc));
    } else {
      ChoiceSingle(cc, slots, CoarseScorer(cc), 0);
    }
  }

  /** What `extract_with_confidence` returns when the reader produced
      detections: the first detection with the maximal confidence. */
  function BestDetection(detections: seq<(string, real)>): (d: (string, real))
    requires |detections| > 0
    ensures d in detections
    ensures forall i | 0 <= i < |detections| :: detections[i].1 <= d.1
  {
    var confs := seq(|detections|, i requires 0 <= i < |detections| => detections[i].1);
    var k := FirstMaxIndex(confs);
    assert forall i | 0 <= i < |detections| :: confs[i] == detections[i].1;
    detections[k]
  }

  /** Among the detections of maximal confidence, the earliest is returned. */
  lemma BestDetectionFirst(detections: seq<(string, real)>)
    requires |detections| > 0
    ensures exists k | 0 <= k < |detections| ::
      && detections[k] == BestDetection(detections)
      && (forall j | 0 <= j < k :: detections[j].1 < detections[k].1)
  {
    var confs := seq(|detections|, i requires 0 <= i < |detections| => detections[i].1);
    var k := FirstMaxIndex(confs);
    assert forall j | 0 <= j < k :: confs[j] == detections[j].1;
    assert detections[k] == BestDetection(detections);
  }

  /** What `extract_with_confidence` returns: the best detection when the
      reader is loaded and returned a non-empty list, otherwise the text of
      `extract_text` with confidence 0.5. */
  function ConfidenceResult(readerLoaded: bool, img: RegionReads, trocrText: string): (string, real) {
    if readerLoaded && img.easyocrDetections.Some? && |img.easyocrDetections.value| > 0
    then BestDetection(img.easyocrDetections.value)
    else (trocrText, 0.5)
  }

  /** The fallback is taken exactly when there is no reader, the reader
      raised, or it detected nothing; otherwise the pair is a detection. */
  lemma ConfidenceCases(readerLoaded: bool, img: RegionReads, trocrText: string)
    ensures var r := ConfidenceResult(readerLoaded, img, trocrText);
      && ((!readerLoaded || img.easyocrDetections.None? || img.easyocrDetections.value == []) ==>
            r == (trocrText, 0.5))
      && ((readerLoaded && img.easyocrDetections.Some? && img.easyocrDetections.value != []) ==>
            && r in img.easyocrDetections.value
            && (forall d | d in img.easyocrDetections.value :: d.1 <= r.1))
  {
    if readerLoaded && img.easyocrDetections.Some? && img.easyocrDetections.value != [] {
      var ds := img.easyocrDetections.value;
      forall d | d in ds ensures d.1 <= BestDetection(ds).1 {
        var i :| 0 <= i < |ds| && ds[i] == d;
      }
    }
  }

  // ---------------------------------------------------------------------
  // The ensemble object

  class EnsembleOCR {
    /** `self.trocr_processor`. */
    const trocr: OCRProcessor
    /** `self.easyocr_reader` is not `None`. */
    var readerLoaded: bool

    /** `__init__`: builds the inner processor and loads EasyOCR; the
        outcome of each load is a parameter. */
    constructor (processorOk: bool, modelOk: bool, tesseractOk: bool, gpuOk: bool, cpuOk: bool)
      ensures fresh(trocr)
      ensures trocr.processorLoaded == processorOk
      ensures trocr.modelLoaded == (processorOk && modelOk)
      ensures trocr.tesseractAvailable == tesseractOk
      ensures readerLoaded == (gpuOk || cpuOk)
    {
      trocr := new OCRProcessor(processorOk, modelOk, tesseractOk);
      readerLoaded := false;
      new;
      LoadEasyOcr(gpuOk, cpuOk);
    }

    /** `load_easyocr`: tries the GPU reader, then the CPU reader; when both
        raise, the field keeps its value. */
    method LoadEasyOcr(gpuOk: bool, cpuOk: bool)
      modifies this
      ensures readerLoaded == (gpuOk || cpuOk || old(readerLoaded))
    {
      if gpuOk {
        readerLoaded := true;
      } else if cpuOk {
        readerLoaded := true;
      }
    }

    /** `choose_best_result`: scores each valid value in a loop into a
        `scores` dict, then takes the key `max` picks. */
    method ChooseBestResult(cc: CharClasses, results: Slots) returns (best: string)
      requires DistinctKeys(results)
      ensures best == CoarseChoice(cc, results)
    {
      var valid := ValidSlots(cc, results);
      if |valid| == 0 {
        return "";
      }
      if |valid| == 1 {
        return valid[0].1;
      }
      ValidDistinct(cc, results);
      var scores := ScoreSlots(cc, valid);
      var keyed := seq(|valid|, j requires 0 <= j < |valid| && valid[j].0 in scores => scores[valid[j].0] as real);
      assert keyed == ScoresBy(valid, CoarseScorer(cc));
      var bestKey := FirstMaxIndex(keyed);
      best := valid[bestKey].1;
    }

    /** `extract_text_ensemble`: fills the slots, then lets
        `choose_best_result` pick. */
    method ExtractTextEnsemble(cc: CharClasses, img: RegionReads) returns (text: string)
      ensures text == CoarseChoice(cc, EnsembleSlots(
        ExtractResult(cc, trocr.modelLoaded && trocr.processorLoaded, trocr.tesseractAvailable, Some(img)),
        readerLoaded, img))
    {
      var results: Slots := [];
      var trocrResult := trocr.ExtractText(cc, Some(img));
      results := results + [("trocr", trocrResult)];
      if readerLoaded {
        var easyocrText := "";
        if img.easyocrTexts.Some? {
          easyocrText := JoinSpace(img.easyocrTexts.value);
        }
        results := results + [("easyocr", easyocrText)];
      }
      results := results + [("tesseract", "")];
      assert results == EnsembleSlots(trocrResult, readerLoaded, img);
      text := ChooseBestResult(cc, results);
    }

    /** `extract_with_confidence`. */
    method ExtractWithConfidence(cc: CharClasses, img: RegionReads) returns (text: string, confidence: real)
      ensures (text, confidence) == ConfidenceResult(readerLoaded, img,
        ExtractResult(cc, trocr.modelLoaded && trocr.processorLoaded, trocr.tesseractAvailable, Some(img)))
    {
      if readerLoaded && img.easyocrDetections.Some? {
        var detections := img.easyocrDetections.value;
        if |detections| > 0 {
          var best := BestDetection(detections);
          return best.0, best.1;
        }
      }
      text := trocr.ExtractText(cc, Some(img));
      confidence := 0.5;
    }
  }
}
