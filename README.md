# Form OCR ensemble: text arbitration and form configuration

This project models the core of a desktop tool that reads a Turkish
cancellation and refund form. The user draws one rectangle per form
field. For each rectangle, several OCR engines read the crop, and the
tool keeps one text per field. The model covers the arbitration logic
and the configuration store. Every OCR engine is an input: what it
returned for a crop, or `None` where it raised.

- `text.dfy`: Python's string primitives (`str.strip`, blank tests and
  character counts). Python's Unicode classes (`str.isspace` / `\s`,
  `str.isalnum`, `str.isdigit`) are a `CharClasses` record of
  predicates passed as a parameter. The cleaner's allow-list names `re`'s
  `\d`, which is `str.isdecimal`. It is written with `str.isdigit`, which
  gives the same allow-list because both sets lie inside `\w`. `Sound` states the only facts the
  proofs use: `' '` is whitespace, and `'İ'` is alphanumeric and not
  whitespace.
- `text_cleaner.dfy`: `OCRProcessor._clean_text`. It strips the text and
  masks characters outside the allow-list with spaces. It then collapses
  whitespace runs to one space, applies the replacement table in its
  insertion order, and strips again. The table is the identity except
  for ASCII `'I'` to `'İ'`.
- `selection.dfy`: Python's `max` and `list.index` over score lists.
- `ocr_processor.dfy`: the inner arbiter, class `OCRProcessor`.
  - `extract_text` collects up to three non-blank cleaned candidates, in
    this order: TrOCR on the crop, TrOCR on the preprocessed crop, then
    Tesseract. The two TrOCR passes share one `try`.
  - `_choose_best_result` picks the first candidate with the maximal
    "fine" score.
  - `_tesseract_extract` keeps the first of three config outputs with the
    strictly highest alphanumeric ratio.
  - `batch_extract` maps each field with truthy coordinates to its text.
  - The fields `processor`, `model` and `tesseract_available` are booleans
    set by the constructor.
- `ensemble_ocr.dfy`: the outer arbiter, class `EnsembleOCR`.
  - `extract_text_ensemble` fills the slots `trocr`, `easyocr` (only with
    a loaded reader) and `tesseract`.
  - `choose_best_result` drops blank values. It returns `""` or the only
    valid value, or else the first value with the maximal integer
    "coarse" score.
  - `extract_with_confidence` returns the first EasyOCR detection of
    maximal confidence. Failing that, it returns `extract_text`'s text
    with confidence 0.5.
  - The `tesseract` slot calls `extract_with_tesseract`, which
    `OCRProcessor` does not define. The resulting `AttributeError` is
    caught, so the slot is always `""`. The model keeps this, and
    `EnsembleFromSlots` proves that the ensemble never returns a
    Tesseract text.
- `config_manager.dfy`: class `ConfigManager`.
  - The configuration is a `Config` datatype: the form fields and two
    settings maps.
  - The configuration file is the field `stored`: the parsed content, or
    `None` when the file is missing, reading it raises `IOError`, or it
    is not valid JSON.
  - `LoadConfig` returns `stored`, or the default configuration when it
    is `None`.
  - Whether a write succeeds is a parameter of each saving method. A
    failed write is assumed to leave `stored` unchanged.
  - Each operation is a pure change of a `Config` (`WithCoordinates`,
    `WithField`, `WithoutField`, `WithOcrSettings`, `WithTemplate`) with
    lemmas about it. A method of the class loads, applies the change and
    saves. The loops of the source are module-level methods.

Python floats are modelled as exact `real`s. The coarse score's
`special_count / len(text) < 0.1` is cross-multiplied as
`10 * special_count < len(text)`. This is exact, because `len(text) > 0`
for every scored value.

## Model

| member | source | states |
|---|---|---|
| Text.StripShape | ocr_processor.py:178 | `strip()` leaves no whitespace at either end, and gives `""` exactly when the text is blank |
| TextCleaner.MaskAllowed | ocr_processor.py:181 | every character of the masked text is in the allow-list |
| TextCleaner.MaskFixedPoint | ocr_processor.py:181 | masking leaves a text unchanged exactly when all of its characters are in the allow-list |
| TextCleaner.CollapseKeepsNonSpace | ocr_processor.py:184 | collapsing keeps every non-whitespace character of the text, in order, and adds none |
| TextCleaner.CollapseStart | ocr_processor.py:184 | the collapse of a non-empty text is non-empty, and starts with its first character, or with a space when that is whitespace |
| TextCleaner.CollapseSingleSpaced | ocr_processor.py:184 | a single-spaced text is its own collapse |
| TextCleaner.CollapseSingle | ocr_processor.py:184 | after `re.sub(r'\s+', ' ', ·)`, every whitespace character is a plain space and no two whitespace characters are adjacent |
| TextCleaner.CollapseChars | ocr_processor.py:184 | every character of the collapsed text is a space or a character of the input |
| TextCleaner.ReplaceCharEffect | ocr_processor.py:194 | after `replace`, the pattern no longer occurs unless it is its own substitute; the text is unchanged exactly when the pattern did not occur or is replaced by itself |
| TextCleaner.ApplyTable | ocr_processor.py:193-194 | applying the table entries in order keeps the length |
| TextCleaner.ApplyTableAt | ocr_processor.py:193-194 | each character of the result is what the table entries, applied in order, make of the input character there |
| TextCleaner.ReplacementsEffect | ocr_processor.py:187-194 | applying the replacement table in order turns `'I'` into `'İ'` and leaves every other character as it is |
| TextCleaner.ReplacementsShape | ocr_processor.py:187-194 | the replacement loop keeps a single-spaced text single spaced, and leaves no `'I'` |
| TextCleaner.CleanText | ocr_processor.py:172-196 | the method, with its replacement loop, computes `Clean`: `""` for `""`, else strip, mask, collapse, replace, strip |
| TextCleaner.CleanIsClean | ocr_processor.py:172-196 | every output has only allow-list characters and no ASCII `'I'`; it is single spaced; it has no whitespace at either end |
| TextCleaner.CleanFixedPoint | ocr_processor.py:172-196 | a text is left unchanged by cleaning if and only if it has the clean shape |
| TextCleaner.CleanIdempotent | ocr_processor.py:172-196 | cleaning twice gives the same text as cleaning once |
| TextCleaner.CleanBlank | ocr_processor.py:174-178 | an empty or all-whitespace text cleans to `""` |
| Selection.MaxOf | ocr_processor.py:227 | `max(scores)` is an element of the list, and no element is larger |
| Selection.IndexOf | ocr_processor.py:227 | `scores.index(x)` is a position holding `x`, and no earlier position holds it |
| Selection.FirstMaxIndex | ensemble_ocr.py:123 | `max` with a key returns a position whose score is maximal, and every earlier position scores strictly less |
| Selection.IndexOfMaxIsFirstMax | ocr_processor.py:227 | `scores.index(max(scores))` is the first position of the maximum, the same rule as `max` with a key |
| OcrProcessor.CleanRatio | ocr_processor.py:221 | `clean_ratio`, the share of word and whitespace characters, lies in [0, 1] |
| OcrProcessor.FineScore | ocr_processor.py:204-224 | the fine score of one candidate lies in [0, 25] |
| OcrProcessor.FineScoreBand | ocr_processor.py:209-210 | a candidate whose stripped length is in [2, 50] scores at least 10; any other candidate scores at most 15 |
| OcrProcessor.ScoreCandidate | ocr_processor.py:205-222 | the body of the scoring loop computes `FineScore` |
| OcrProcessor.WinnerBy | ocr_processor.py:200-228 | the chosen position is inside the list, and is 0 for a one-element list |
| OcrProcessor.WinnerFirstMax | ocr_processor.py:198-228 | the chosen candidate has the maximal score and every earlier candidate scores strictly less, so ties go to the earliest candidate |
| OcrProcessor.ChooseBestResult | ocr_processor.py:198-228 | returns the sole candidate of a one-element list, and otherwise the candidate at the first maximal fine score |
| OcrProcessor.AlnumRatio | ocr_processor.py:162 | `conf`, the share of alphanumeric characters over `max(len, 1)`, lies in [0, 1] |
| OcrProcessor.PickBestSelects | ocr_processor.py:155-168 | the loop keeps `""` if and only if no config output is non-blank with a positive ratio; otherwise it keeps the first such output with the strictly highest ratio |
| OcrProcessor.TesseractExtract | ocr_processor.py:144-170 | the loop over the three configs computes `PickBest` (failed configs skipped), and the result is that text cleaned |
| OcrProcessor.TesseractResult | ocr_processor.py:155-170 | the result is `""` when no output qualifies, and otherwise the cleaned text of the best qualifying output |
| OcrProcessor.TrocrPasses | ocr_processor.py:89-103 | the two TrOCR passes append their non-blank cleaned texts in order, and a raw pass that raises skips the preprocessed pass |
| OcrProcessor.CandidatesClean | ocr_processor.py:86-112 | every collected candidate is a non-empty, non-blank cleaned text |
| OcrProcessor.ExtractResultIsCandidate | ocr_processor.py:83-118 | the result is a cleaned text; it is `""` for no image; it is `""` if and only if nothing was collected; otherwise it is one of the collected candidates |
| OcrProcessor.NoBackendNoText | ocr_processor.py:89-116 | without a TrOCR model and without Tesseract, the result is `""` |
| OcrProcessor.RawFailureSkipsPreprocessed | ocr_processor.py:90-103 | when the raw TrOCR pass raises, the candidates do not depend on the preprocessed pass |
| OcrProcessor.FieldTextClean | ocr_processor.py:258-267 | every value `batch_extract` stores is a cleaned text |
| OcrProcessor.OCRProcessor.constructor | ocr_processor.py:12-49 | the processor is loaded when its load succeeded; the model only when the processor's and the model's loads both succeeded; Tesseract when its probe succeeded |
| OcrProcessor.OCRProcessor.ExtractText | ocr_processor.py:81-118 | the method computes `ExtractResult` from the availability fields: candidates in the order raw TrOCR, preprocessed TrOCR, Tesseract, then the fine choice |
| OcrProcessor.OCRProcessor.ExtractField | ocr_processor.py:260-267 | one field's text: `""` when the box does not unpack into four values or the crop raises, otherwise `extract_text` of the crop |
| OcrProcessor.OCRProcessor.BatchExtract | ocr_processor.py:254-269 | the keys are exactly the fields with truthy coordinates, and each value is that field's text |
| EnsembleOcr.ValidPositions | ensemble_ocr.py:78 | lists exactly the positions of the non-blank slot values, in insertion order |
| EnsembleOcr.ValidComplete | ensemble_ocr.py:78 | the filtered dict holds exactly the entries with a non-blank value, each once, in insertion order |
| EnsembleOcr.ValidDistinct | ensemble_ocr.py:78 | filtering the dict keeps its keys distinct |
| EnsembleOcr.CoarseScore | ensemble_ocr.py:91-120 | the coarse score is an integer in [0, 50] |
| EnsembleOcr.CoarseScoreOfValid | ensemble_ocr.py:116-118 | every non-blank value earns the word bonus, so it scores at least 5 |
| EnsembleOcr.ScoreText | ensemble_ocr.py:91-118 | the scoring loop body computes `CoarseScore` |
| EnsembleOcr.ScoreSlots | ensemble_ocr.py:88-120 | the `scores` dict maps each valid key to the coarse score of its value |
| EnsembleOcr.ChoiceWins | ensemble_ocr.py:78-124 | the result is `""` or the verbatim value of a non-blank slot with the maximal score; every earlier non-blank slot scores strictly less |
| EnsembleOcr.ChoiceEmpty | ensemble_ocr.py:78-81 | the result is `""` if and only if every slot value is blank |
| EnsembleOcr.ChoiceSingle | ensemble_ocr.py:84-85 | the only non-blank value is returned as it is |
| EnsembleOcr.JoinSpaceBlank | ensemble_ocr.py:55 | the detections joined by spaces are blank exactly when every detection is blank, which decides whether the `easyocr` slot survives the blank filter |
| EnsembleOcr.EnsembleSlots | ensemble_ocr.py:35-69 | the slots filled by `extract_text_ensemble` have distinct keys |
| EnsembleOcr.EnsembleFromSlots | ensemble_ocr.py:38-72 | the ensemble returns `""`, the TrOCR text or, only with a loaded reader, the EasyOCR text; never a Tesseract text |
| EnsembleOcr.EnsembleWithoutReader | ensemble_ocr.py:38-85 | without a reader, the ensemble returns exactly what `extract_text` returned |
| EnsembleOcr.BestDetection | ensemble_ocr.py:142 | the chosen detection is one of the detections, and no detection has a higher confidence |
| EnsembleOcr.BestDetectionFirst | ensemble_ocr.py:142 | every detection before the chosen one has a strictly lower confidence |
| EnsembleOcr.ConfidenceCases | ensemble_ocr.py:131-153 | the fallback `(extract_text, 0.5)` is taken exactly when there is no reader, the reader raised, or it found nothing; otherwise the pair is a detection of maximal confidence |
| EnsembleOcr.EnsembleOCR.constructor | ensemble_ocr.py:13-16 | builds a fresh inner processor with the given load outcomes; the reader is loaded when the GPU or the CPU load succeeds |
| EnsembleOcr.EnsembleOCR.LoadEasyOcr | ensemble_ocr.py:18-31 | the GPU load is tried first and the CPU load second; when both raise, the field keeps its value |
| EnsembleOcr.EnsembleOCR.ChooseBestResult | ensemble_ocr.py:75-127 | the method, with its scoring loop and `max`, computes `CoarseChoice` |
| EnsembleOcr.EnsembleOCR.ExtractTextEnsemble | ensemble_ocr.py:33-73 | the result is the coarse choice over the slots `trocr` (the inner processor's text), `easyocr` (only with a reader; `""` when it raised) and `tesseract` (`""`) |
| EnsembleOcr.EnsembleOCR.ExtractWithConfidence | ensemble_ocr.py:129-153 | returns `ConfidenceResult` over the inner processor's text |
| ConfigManager.DefaultConfigShape | config_manager.py:10-52 | the default configuration has exactly 14 form fields, each without coordinates, required and of type text |
| ConfigManager.BlankFields | config_manager.py:45-50 | the loop makes one blank entry for each default name and no other entry |
| ConfigManager.ConfigManager.constructor | config_manager.py:8-9 | the manager's file holds the given content: parsed, or `None` when missing, raising `IOError` or not valid JSON |
| ConfigManager.ConfigManager.SaveConfig | config_manager.py:66-74 | returns whether the write succeeded; a successful write stores the configuration and a failed one leaves the stored content unchanged |
| ConfigManager.ConfigManager.CreateDefaultConfig | config_manager.py:27-52 | builds the default configuration: the 14 blank fields and the fixed OCR and output settings |
| ConfigManager.CoordinatesUpdate | config_manager.py:80-81 | reading back gives the new coordinates; the field keeps its other attributes; the other fields and the settings are unchanged |
| ConfigManager.ConfigManager.UpdateFieldCoordinates | config_manager.py:76-83 | an unknown field gives `False` and nothing is saved; otherwise the result is the save's, and a successful save stores the updated configuration |
| ConfigManager.ConfigManager.GetFieldCoordinates | config_manager.py:85-91 | returns `FieldCoordinates` of the loaded configuration: `None` for an unknown field, otherwise its stored coordinates, so `CoordinatesUpdate`'s read-back applies to it |
| ConfigManager.TruthyCoordinates | config_manager.py:96-102 | the loop keeps exactly the fields with truthy coordinates, with those coordinates |
| ConfigManager.ConfigManager.GetAllCoordinates | config_manager.py:93-102 | returns `AllCoordinates` of the loaded configuration |
| ConfigManager.AllCoordinatesAfterUpdate | config_manager.py:76-102 | after storing non-empty coordinates, the field appears in `get_all_coordinates` with them; after storing `[]` it is absent; other fields are unaffected |
| ConfigManager.ConfigManager.AddCustomField | config_manager.py:104-114 | inserts or overwrites the field without coordinates, and returns the save's result |
| ConfigManager.AddThenRemove | config_manager.py:104-123 | adding a field and then removing it equals removing it alone, and restores the configuration when the field was new |
| ConfigManager.RemoveFrame | config_manager.py:120-121 | removing a field deletes only that key |
| ConfigManager.ConfigManager.RemoveField | config_manager.py:116-123 | an unknown field gives `False` and nothing is saved; otherwise the configuration without the field is saved |
| ConfigManager.ConfigManager.GetOcrSettings | config_manager.py:125-128 | returns the loaded configuration's OCR settings |
| ConfigManager.OcrSettingsMerge | config_manager.py:133 | the supplied keys are overwritten or inserted; every other setting is kept; the same update applied twice changes nothing more |
| ConfigManager.ConfigManager.UpdateOcrSettings | config_manager.py:130-134 | saves the loaded configuration with the settings merged, and returns the save's result |
| ConfigManager.MergeFields | config_manager.py:172-173 | the loop writes each template field, and the fields the template does not name keep their entries |
| ConfigManager.TemplateFrame | config_manager.py:172-173 | importing writes each template field, and the fields the template does not name are unchanged |
| ConfigManager.ConfigManager.ImportTemplate | config_manager.py:163-178 | an unreadable template gives `False` and nothing is saved; otherwise the merged configuration is saved and the save's result is returned |
| ConfigManager.ExportImportCoordinates | config_manager.py:136-173 | exporting the coordinates as a template and importing it back leaves `get_all_coordinates` unchanged |

## Left out

- The desktop UI in `main.py` is not part of this model. That covers the canvas and listbox, the background thread, JSON output and coordinate scaling.
- Backend inference is left out because it runs foreign libraries. That covers `_trocr_extract` (torch/transformers), `pytesseract.image_to_string` and `easyocr.readtext`. What each returns for a crop, or `None` where it raised, is a field of `RegionReads`.
- `load_models` and `load_easyocr` are modelled only through the outcome of each load, given as a boolean parameter.
- `preprocess_image` is not modelled, because it is OpenCV pixel processing. Its effect is only which TrOCR text the preprocessed pass returns. A failure of preprocessing shows as `None` for that pass.
- `convert_pdf_to_image` is not modelled, because it is file I/O through PDF libraries.
- File I/O in `ConfigManager` is abstracted. The file is the `stored` field. A missing file, an `IOError` on reading, or content that is not valid JSON is `None`, which loads the default configuration. A write's success is a parameter.
- ConfigManager.ConfigManager.SaveConfig: a failed write is assumed to leave the file unchanged. In the source, `open(..., 'w')` truncates the file before `json.dump` runs, so a write that fails part-way can leave an empty or partial file.
- `export_template` is modelled only through the `form_fields` it builds (`ExportFields`). Its file write and its `datetime.now()` timestamp are not modelled.
- A configuration file or template that is not valid UTF-8 is not modelled. In the source, `load_config` and `import_template` catch only `IOError` and `json.JSONDecodeError`. So the resulting `UnicodeDecodeError` propagates out of every `ConfigManager` operation, instead of loading the default configuration or returning `False`. The model has no state for such a file.
- Malformed configuration files are not modelled. `Config` always has its three sections, and each field always has its three attributes. So the `KeyError`s of a file without `form_fields` or `ocr_settings` do not arise. The same holds for a template without `form_fields`, whose `KeyError` the source does not catch. Settings values are limited to strings, booleans and numbers.
- Python's Unicode tables behind `\s`, `\w`, `isalnum` and `isdigit` are not tabulated. They are the `CharClasses` parameter, with only the facts in `Sound`.
- Logging and `print` calls are left out.
- FineScore: computed over exact rationals. Python's float rounding of `clean_ratio * 5` could in principle make two nearly equal scores compare differently.
- AlnumRatio: an exact rational, where the source divides floats. The loop compares these ratios for strict improvement.
- ScoreSlots: states each valid key's entry, but not that the dict has no other keys. The selection only reads the valid keys.
- EnsembleOcr.EnsembleOCR.ExtractTextEnsemble: the `trocr` slot's `try` never fires in the model, because `extract_text` itself catches every backend failure. The conversion of the image to an OpenCV array is part of the EasyOCR read it feeds.
