/** `OCRProcessor`: the inner arbiter. It collects up to three cleaned
    candidates for one region (TrOCR on the raw crop, TrOCR on the
    preprocessed crop, Tesseract) and keeps the one with the best "fine"
    score. The recognisers themselves are inputs: what each returned, or
    `None` where it raised. */
module OcrProcessor {
  import opened Wrappers
  import opened Coordinates
  import opened Text
  import opened TextCleaner
  import opened Selection

  /** What the backends produce for one region crop. */
  datatype RegionReads = RegionReads(
    /** TrOCR's decoded text for the crop as given; `None` if the call raised. */
    trocrRaw: Option<string>,
    /** TrOCR's decoded text for the preprocessed crop; `None` if
        preprocessing or the call raised. */
    trocrPreprocessed: Option<string>,
    /** `pytesseract.image_to_string(image, config=c)` for each config `c`;
        `None` where it raised. */
    tesseract: string -> Option<string>,
    /** EasyOCR's `readtext(..., detail=0)`; `None` if it raised. */
    easyocrTexts: Option<seq<string>>,
    /** EasyOCR's `readtext(..., detail=True)` as (text, confidence) pairs;
        `None` if it raised. */
    easyocrDetections: Option<seq<(string, real)>>)

  // ---------------------------------------------------------------------
  // The "fine" score of `_choose_best_result`

  /** The Turkish letters both scorers look for (with an ASCII capital `I`). */
  const TurkishLetters: string := "çğıöşüÇĞIÖŞÜ"

  /** `any(c.isdigit() for c in text)`. */
  predicate HasDigit(cc: CharClasses, s: string) {
    exists i | 0 <= i < |s| :: cc.isDigit(s[i])
  }

  /** `len(re.sub(r'[^\w\s]', '', text)) / max(len(text), 1)`. */
  function CleanRatio(cc: CharClasses, s: string): (r: real)
    ensures 0.0 <= r <= 1.0
  {
    Ratio(CountWhere(s, c => IsWord(cc, c) || cc.isSpace(c)), |s|)
  }

  /** The score one candidate gets in `_choose_best_result`: 10 for a
      stripped length in [2, 50], 5 for a Turkish letter, 5 for a digit,
      and five times the clean ratio. */
  function FineScore(cc: CharClasses, text: string): (r: real)
    ensures 0.0 <= r <= 25.0
  {
    var n := |Strip(cc, text)|;
    (if 2 <= n <= 50 then 10.0 else 0.0)
    + (if ContainsAny(text, TurkishLetters) then 5.0 else 0.0)
    + (if HasDigit(cc, text) then 5.0 else 0.0)
    + CleanRatio(cc, text) * 5.0
  }

  /** The length band dominates: a candidate in the band scores at least
      10, one outside it at most 15. */
  lemma FineScoreBand(cc: CharClasses, text: string)
    ensures 2 <= |Strip(cc, text)| <= 50 ==> FineScore(cc, text) >= 10.0
    ensures !(2 <= |Strip(cc, text)| <= 50) ==> FineScore(cc, text) <= 15.0
  {
  }

  /** `FineScore` as a function value. */
  function FineScorer(cc: CharClasses): string -> real {
    t => FineScore(cc, t)
  }

  /** The score list of the candidates under a scoring. */
  function ScoresOf(results: seq<string>, score: string -> real): (scores: seq<real>)
    ensures |scores| == |results|
  {
    seq(|results|, i requires 0 <= i < |results| => score(results[i]))
  }

  /** The position `_choose_best_result` picks under a scoring: the only one
      of a singleton, otherwise the first position of the maximal score. */
  function WinnerBy(results: seq<string>, score: string -> real): (k: nat)
    requires |results| > 0
    ensures k < |results|
    ensures |results| == 1 ==> k == 0
  {
    if |results| == 1 then 0 else FirstMaxIndex(ScoresOf(results, score))
  }

  /** The winner has the maximal score, and every earlier candidate scores
      strictly less: ties go to the earliest candidate. */
  lemma WinnerFirstMax(results: seq<string>, score: string -> real)
    requires |results| > 0
    ensures var k := WinnerBy(results, score);
      && (forall j | 0 <= j < |results| :: score(results[j]) <= score(results[k]))
      && (forall j | 0 <= j < k :: score(results[j]) < score(results[k]))
  {
    if |results| > 1 {
      var scores := ScoresOf(results, score);
      assert forall j | 0 <= j < |results| :: scores[j] == score(results[j]);
    }
  }

  /** The position `_choose_best_result` picks with the fine score. */
  function FineWinner(cc: CharClasses, results: seq<string>): (k: nat)
    requires |results| > 0
    ensures k < |results|
  {
    WinnerBy(results, FineScorer(cc))
  }

  /** The body of the scoring loop of `_choose_best_result`: `score` starts
      at 0 and each rule adds its part. */
  method ScoreCandidate(cc: CharClasses, text: string) returns (score: real)
    ensures score == FineScore(cc, text)
  {
    score := 0.0;
    var n := |Strip(cc, text)|;
    if 2 <= n <= 50 {
      score := score + 10.0;
    }
    if ContainsAny(text, TurkishLetters) {
      score := score + 5.0;
    }
    if HasDigit(cc, text) {
      score := score + 5.0;
    }
    var cleanRatio := CleanRatio(cc, text);
    score := score + cleanRatio * 5.0;
  }

  /** `_choose_best_result`: scores every candidate in a loop, then takes
      `scores.index(max(scores))`. */
  method ChooseBestResult(cc: CharClasses, results: seq<string>) returns (best: string)
    requires |results| > 0
    ensures best == results[FineWinner(cc, results)]
  {
    if |results| == 1 {
      return results[0];
    }
    ghost var values := ScoresOf(results, FineScorer(cc));
    var scores: seq<real> := [];
    for i := 0 to |results|
      invariant scores == values[..i]
    {
      var score := ScoreCandidate(cc, results[i]);
      PrefixExtend(values, i);
      scores := scores + [score];
    }
    PrefixExtend(values, |results| - 1);
    var bestIdx := IndexOf(scores, MaxOf(scores));
    IndexOfMaxIsFirstMax(scores);
    best := results[bestIdx];
  }

  // ---------------------------------------------------------------------
  // `_tesseract_extract`

  /** The three page-segmentation configs, tried in this order. */
  const TesseractConfigs: seq<string> := [
    "--oem 3 --psm 8 -l tur",
    "--oem 3 --psm 7 -l tur",
    "--oem 3 --psm 6 -l tur"
  ]

  /** What Tesseract returned for each config, in config order. */
  function TesseractOutputs(engine: string -> Option<string>): (outs: seq<Option<string>>)
    ensures |outs| == |TesseractConfigs|
  {
    seq(|TesseractConfigs|, i requires 0 <= i < |TesseractConfigs| => engine(TesseractConfigs[i]))
  }

  /** The "confidence" of one output: alphanumeric characters over `max(len, 1)`. */
  function AlnumRatio(cc: CharClasses, text: string): (r: real)
    ensures 0.0 <= r <= 1.0
  {
    Ratio(CountWhere(text, cc.isAlnum), |text|)
  }

  /** `AlnumRatio` as a function value, the rating the selection loop uses. */
  function AlnumRater(cc: CharClasses): string -> real {
    t => AlnumRatio(cc, t)
  }

  /** The loop state `(best_text, best_conf)`. */
  datatype Pick = Pick(text: string, conf: real)

  /** The loop state after the given outputs: an output replaces the best so
      far when it did not raise, its ratio is strictly higher, and it is not
      blank. */
  function PickBest(cc: CharClasses, outs: seq<Option<string>>, rate: string -> real): Pick
    decreases |outs|
  {
    if outs == [] then Pick([], 0.0)
    else
      var p := PickBest(cc, outs[..|outs| - 1], rate);
      var o := outs[|outs| - 1];
      if o.Some? && rate(o.value) > p.conf && !IsBlank(cc, o.value)
      then Pick(o.value, rate(o.value))
      else p
  }

  /** An output that can win: it did not raise, is not blank, and rates
      above the initial `best_conf` of 0 (for `AlnumRatio`: it has at least
      one alphanumeric character). */
  predicate Qualifies(cc: CharClasses, o: Option<string>, rate: string -> real) {
    o.Some? && !IsBlank(cc, o.value) && rate(o.value) > 0.0
  }

  /** `k` holds the first output with the highest ratio among those that qualify. */
  ghost predicate IsBestOutput(cc: CharClasses, outs: seq<Option<string>>, k: int, rate: string -> real) {
    && 0 <= k < |outs| && Qualifies(cc, outs[k], rate)
    && (forall j | 0 <= j < |outs| && Qualifies(cc, outs[j], rate) ::
          rate(outs[j].value) <= rate(outs[k].value))
    && (forall j | 0 <= j < k && Qualifies(cc, outs[j], rate) ::
          rate(outs[j].value) < rate(outs[k].value))
  }

  /** An output that beats every earlier qualifying output is the best one. */
  lemma NewBest(cc: CharClasses, outs: seq<Option<string>>, rate: string -> real, conf: real)
    requires |outs| > 0 && Qualifies(cc, outs[|outs| - 1], rate)
    requires rate(outs[|outs| - 1].value) > conf
    requires forall j | 0 <= j < |outs| - 1 && Qualifies(cc, outs[j], rate) :: rate(outs[j].value) <= conf
    ensures IsBestOutput(cc, outs, |outs| - 1, rate)
  {
  }

  /** The best output so far stays the best when the next output does not
      rate higher. */
  lemma KeepBest(cc: CharClasses, outs: seq<Option<string>>, rate: string -> real, k: int)
    requires |outs| > 0 && IsBestOutput(cc, outs[..|outs| - 1], k, rate)
    requires Qualifies(cc, outs[|outs| - 1], rate) ==> rate(outs[|outs| - 1].value) <= rate(outs[k].value)
    ensures IsBestOutput(cc, outs, k, rate)
  {
    var n := |outs| - 1;
    assert forall j | 0 <= j < n :: outs[..n][j] == outs[j];
  }

  /** The selection loop of `_tesseract_extract` keeps `""` when no output
      qualifies, and otherwise the first output with the strictly highest
      rating: `k` is that output, or -1 when there is none. */
  lemma {:induction false} PickBestSelects(cc: CharClasses, outs: seq<Option<string>>, rate: string -> real)
    returns (k: int)
    ensures -1 <= k < |outs|
    ensures k == -1 <==> forall j | 0 <= j < |outs| :: !Qualifies(cc, outs[j], rate)
    ensures k == -1 ==> PickBest(cc, outs, rate) == Pick([], 0.0)
    ensures k != -1 ==> IsBestOutput(cc, outs, k, rate)
                        && PickBest(cc, outs, rate) == Pick(outs[k].value, rate(outs[k].value))
    decreases |outs|
  {
    if outs == [] {
      return -1;
    }
    var n := |outs| - 1;
    var front := outs[..n];
    var i := PickBestSelects(cc, front, rate);
    var p := PickBest(cc, front, rate);
    var o := outs[n];
    var takes := o.Some? && rate(o.value) > p.conf && !IsBlank(cc, o.value);
    assert PickBest(cc, outs, rate) == if takes then Pick(o.value, rate(o.value)) else p;
    if i == -1 {
      assert forall j | 0 <= j < n :: outs[j] == front[j];
      if takes {
        NewBest(cc, outs, rate, 0.0);
        k := n;
      } else {
        k := -1;
      }
    } else {
      if takes {
        assert forall j | 0 <= j < n :: outs[j] == front[j];
        NewBest(cc, outs, rate, p.conf);
        k := n;
      } else {
        KeepBest(cc, outs, rate, i);
        assert outs[i] == front[i];
        k := i;
      }
    }
  }

  /** `_tesseract_extract`: tries each config, keeps the best output so far,
      skips configs that raised, and cleans the winner. */
  method TesseractExtract(cc: CharClasses, engine: string -> Option<string>) returns (text: string)
    ensures text == Clean(cc, PickBest(cc, TesseractOutputs(engine), AlnumRater(cc)).text)
  {
    ghost var outs := TesseractOutputs(engine);
    var bestText := "";
    var bestConf := 0.0;
    for i := 0 to |TesseractConfigs|
      invariant Pick(bestText, bestConf) == PickBest(cc, outs[..i], AlnumRater(cc))
    {
      assert outs[..i + 1][..i] == outs[..i];
      var output := engine(TesseractConfigs[i]);
      if output.Some? {
        var conf := AlnumRatio(cc, output.value);
        if conf > bestConf && !IsBlank(cc, output.value) {
          bestText := output.value;
          bestConf := conf;
        }
      }
    }
    assert outs[..|TesseractConfigs|] == outs;
    text := CleanText(cc, bestText);
  }

  /** When no config output qualifies, `_tesseract_extract` returns `""`;
      otherwise it returns the cleaned text of the best output. */
  lemma TesseractResult(cc: CharClasses, engine: string -> Option<string>)
    ensures var outs := TesseractOutputs(engine);
      var r := Clean(cc, PickBest(cc, outs, AlnumRater(cc)).text);
      && ((forall j | 0 <= j < |outs| :: !Qualifies(cc, outs[j], AlnumRater(cc))) ==> r == [])
      && ((exists j | 0 <= j < |outs| :: Qualifies(cc, outs[j], AlnumRater(cc))) ==>
            exists k :: IsBestOutput(cc, outs, k, AlnumRater(cc)) && r == Clean(cc, outs[k].value))
  {
    var k := PickBestSelects(cc, TesseractOutputs(engine), AlnumRater(cc));
  }

  // ---------------------------------------------------------------------
  // `extract_text`

  /** A pass's cleaned text as the list of what it appends: nothing when blank. */
  function Kept(cc: CharClasses, r: string): seq<string> {
    if IsBlank(cc, r) then [] else [r]
  }

  /** The candidates of the two TrOCR passes. They share one `try`, so a
      failure of the raw pass also skips the preprocessed pass. */
  function TrocrCandidates(cc: CharClasses, img: RegionReads): seq<string> {
    match img.trocrRaw
    case None => []
    case Some(raw) =>
      match img.trocrPreprocessed
      case None => Kept(cc, Clean(cc, raw))
      case Some(pre) => Kept(cc, Clean(cc, raw)) + Kept(cc, Clean(cc, pre))
  }

  /** The candidate of the Tesseract pass. */
  function TesseractCandidates(cc: CharClasses, img: RegionReads): seq<string> {
    Kept(cc, Clean(cc, PickBest(cc, TesseractOutputs(img.tesseract), AlnumRater(cc)).text))
  }

  /** The `results` list `extract_text` collects, in collection order. */
  function Candidates(cc: CharClasses, trocrReady: bool, tesseractReady: bool, img: RegionReads): seq<string> {
    (if trocrReady then TrocrCandidates(cc, img) else [])
    + (if tesseractReady then TesseractCandidates(cc, img) else [])
  }

  /** What `extract_text` returns. */
  function ExtractResult(cc: CharClasses, trocrReady: bool, tesseractReady: bool, image: Option<RegionReads>): string {
    match image
    case None => []
    case Some(img) =>
      var results := Candidates(cc, trocrReady, tesseractReady, img);
      if results == [] then [] else results[FineWinner(cc, results)]
  }

  /** Texts that `extract_text` may keep: non-empty cleaned texts. */
  ghost predicate AllKept(cc: CharClasses, cs: seq<string>) {
    forall i | 0 <= i < |cs| :: IsClean(cc, cs[i]) && !IsBlank(cc, cs[i]) && cs[i] != []
  }

  lemma AllKeptConcat(cc: CharClasses, a: seq<string>, b: seq<string>)
    requires AllKept(cc, a) && AllKept(cc, b)
    ensures AllKept(cc, a + b)
  {
    forall i | 0 <= i < |a + b|
      ensures IsClean(cc, (a + b)[i]) && !IsBlank(cc, (a + b)[i]) && (a + b)[i] != []
    {
      if i < |a| {
        assert (a + b)[i] == a[i];
      } else {
        assert (a + b)[i] == b[i - |a|];
      }
    }
  }

  /** The text of one pass, kept only when it is not blank. */
  lemma KeepIfNotBlank(cc: CharClasses, r: string)
    requires IsClean(cc, r)
    ensures AllKept(cc, Kept(cc, r))
  {
    if !IsBlank(cc, r) {
      assert r != [];
    }
  }

  /** The text a pass on `raw` contributes is a non-blank cleaned text. */
  lemma PassKept(cc: CharClasses, raw: string)
    requires Sound(cc)
    ensures AllKept(cc, Kept(cc, Clean(cc, raw)))
  {
    CleanIsClean(cc, raw);
    KeepIfNotBlank(cc, Clean(cc, raw));
  }

  /** Every collected candidate is a non-blank cleaned text. */
  lemma CandidatesClean(cc: CharClasses, trocrReady: bool, tesseractReady: bool, img: RegionReads)
    requires Sound(cc)
    ensures AllKept(cc, Candidates(cc, trocrReady, tesseractReady, img))
  {
    if img.trocrRaw.Some? {
      PassKept(cc, img.trocrRaw.value);
      if img.trocrPreprocessed.Some? {
        PassKept(cc, img.trocrPreprocessed.value);
        AllKeptConcat(cc, Kept(cc, Clean(cc, img.trocrRaw.value)),
                      Kept(cc, Clean(cc, img.trocrPreprocessed.value)));
      }
    }
    PassKept(cc, PickBest(cc, TesseractOutputs(img.tesseract), AlnumRater(cc)).text);
    AllKeptConcat(cc, if trocrReady then TrocrCandidates(cc, img) else [],
                  if tesseractReady then TesseractCandidates(cc, img) else []);
  }

  /** `extract_text` returns `""` exactly when nothing was collected, and
      otherwise one collected candidate verbatim, a cleaned text. */
  lemma ExtractResultIsCandidate(cc: CharClasses, trocrReady: bool, tesseractReady: bool, image: Option<RegionReads>)
    requires Sound(cc)
    ensures var r := ExtractResult(cc, trocrReady, tesseractReady, image);
      && IsClean(cc, r)
      && (image.None? ==> r == [])
      && (image.Some? ==>
            var results := Candidates(cc, trocrReady, tesseractReady, image.value);
            (r == [] <==> results == []) && (results != [] ==> r in results))
  {
    if image.Some? {
      CandidatesClean(cc, trocrReady, tesseractReady, image.value);
    }
  }

  /** With no TrOCR model and no Tesseract, `extract_text` returns `""`. */
  lemma NoBackendNoText(cc: CharClasses, image: Option<RegionReads>)
    ensures ExtractResult(cc, false, false, image) == []
  {
  }

  /** A failed raw TrOCR pass makes the preprocessed pass irrelevant. */
  lemma RawFailureSkipsPreprocessed(cc: CharClasses, trocrReady: bool, tesseractReady: bool,
                                    img: RegionReads, pre: Option<string>)
    requires img.trocrRaw.None?
    ensures Candidates(cc, trocrReady, tesseractReady, img)
         == Candidates(cc, trocrReady, tesseractReady, img.(trocrPreprocessed := pre))
  {
  }

  // ---------------------------------------------------------------------
  // The processor object

  /** The text `batch_extract` stores for one field with truthy coordinates. */
  function FieldText(cc: CharClasses, trocrReady: bool, tesseractReady: bool,
                     box: seq<int>, crop: (int, int, int, int) -> Option<RegionReads>): string
  {
    if |box| != 4 then []  // unpacking into x1, y1, x2, y2 raises
    else
      match crop(box[0], box[1], box[2], box[3])
      case None => []      // image.crop raises
      case Some(img) => ExtractResult(cc, trocrReady, tesseractReady, Some(img))
  }

  /** The TrOCR block of `extract_text`: the raw pass, then the
      preprocessed pass, inside one `try`; each non-blank cleaned text is
      appended. */
  method TrocrPasses(cc: CharClasses, img: RegionReads) returns (results: seq<string>)
    ensures results == TrocrCandidates(cc, img)
  {
    results := [];
    if img.trocrRaw.None? {
      return;
    }
    var result1 := CleanText(cc, img.trocrRaw.value);
    if !IsBlank(cc, result1) {
      results := results + [result1];
    }
    assert results == Kept(cc, result1);
    if img.trocrPreprocessed.Some? {
      var result2 := CleanText(cc, img.trocrPreprocessed.value);
      if !IsBlank(cc, result2) {
        results := results + [result2];
      }
      assert results == Kept(cc, result1) + Kept(cc, result2);
    }
  }

  class OCRProcessor {
    /** `self.processor` is not `None`. */
    var processorLoaded: bool
    /** `self.model` is not `None`. */
    var modelLoaded: bool
    var tesseractAvailable: bool

    /** `__init__` and `load_models`, with the outcome of each load as a
        parameter. The processor is loaded before the model in one `try`, so
        the model is set only when the processor loaded too. */
    constructor (processorOk: bool, modelOk: bool, tesseractOk: bool)
      ensures processorLoaded == processorOk
      ensures modelLoaded == (processorOk && modelOk)
      ensures tesseractAvailable == tesseractOk
    {
      processorLoaded := processorOk;
      modelLoaded := processorOk && modelOk;
      tesseractAvailable := tesseractOk;
    }

    /** `extract_text`: appends each non-blank candidate to `results` and
        lets `_choose_best_result` pick one. */
    method ExtractText(cc: CharClasses, image: Option<RegionReads>) returns (text: string)
      ensures text == ExtractResult(cc, modelLoaded && processorLoaded, tesseractAvailable, image)
    {
      if image.None? {
        return [];
      }
      var img := image.value;
      var results: seq<string> := [];
      if modelLoaded && processorLoaded {
        results := TrocrPasses(cc, img);
      }
      if tesseractAvailable {
        var result3 := TesseractExtract(cc, img.tesseract);
        if !IsBlank(cc, result3) {
          results := results + [result3];
        }
      }
      assert results == Candidates(cc, modelLoaded && processorLoaded, tesseractAvailable, img);
      if results == [] {
        return [];
      }
      text := ChooseBestResult(cc, results);
    }

    /** The body of the `batch_extract` loop for one field: unpack the box,
        crop, extract; an unpacking or crop that raises gives `""`. */
    method ExtractField(cc: CharClasses, box: seq<int>, crop: (int, int, int, int) -> Option<RegionReads>)
      returns (text: string)
      ensures text == FieldText(cc, modelLoaded && processorLoaded, tesseractAvailable, box, crop)
    {
      if |box| != 4 {
        return [];
      }
      var cropped := crop(box[0], box[1], box[2], box[3]);
      if cropped.None? {
        return [];
      }
      text := ExtractText(cc, cropped);
    }

    /** `batch_extract`: one entry per field with truthy coordinates; a field
        whose unpacking or crop raises maps to `""`. */
    method BatchExtract(cc: CharClasses, coordinates: map<string, Coords>,
                        crop: (int, int, int, int) -> Option<RegionReads>)
      returns (results: map<string, string>)
      ensures results.Keys == set f | f in coordinates && Truthy(coordinates[f])
      ensures forall f | f in results ::
        results[f] == FieldText(cc, modelLoaded && processorLoaded, tesseractAvailable,
                                coordinates[f].value, crop)
    {
      results := map[];
      var pending := coordinates.Keys;
      while pending != {}
        invariant pending <= coordinates.Keys
        invariant results.Keys == set f | f in coordinates && f !in pending && Truthy(coordinates[f])
        invariant forall f | f in results ::
          results[f] == FieldText(cc, modelLoaded && processorLoaded, tesseractAvailable,
                                  coordinates[f].value, crop)
        decreases pending
      {
        var field :| field in pending;
        var coords := coordinates[field];
        if coords.Some? && |coords.value| > 0 {
          var text := ExtractField(cc, coords.value, crop);
          results := results[field := text];
        }
        pending := pending - {field};
      }
    }
  }

  /** Every value `batch_extract` stores is `""` or a cleaned candidate of
      that field's crop. */
  lemma FieldTextClean(cc: CharClasses, trocrReady: bool, tesseractReady: bool,
                       box: seq<int>, crop: (int, int, int, int) -> Option<RegionReads>)
    requires Sound(cc)
    ensures IsClean(cc, FieldText(cc, trocrReady, tesseractReady, box, crop))
  {
    if |box| == 4 {
      ExtractResultIsCandidate(cc, trocrReady, tesseractReady, crop(box[0], box[1], box[2], box[3]));
    }
  }
}
