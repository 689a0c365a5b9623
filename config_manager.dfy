/** `ConfigManager`: the form configuration, a nested dictionary of field
    definitions and settings that every operation loads, changes and saves.
    The configuration file is a field holding the parsed content (`None`
    when the file is missing, raises `IOError` or is not valid JSON);
    whether a write succeeds is a parameter of each operation. */
module ConfigManager {
  import opened Wrappers
  import opened Coordinates

  /** A JSON scalar of the settings sections. */
  datatype Setting = Text(text: string) | Flag(flag: bool) | Number(number: real)

  /** One entry of `form_fields`. */
  datatype FieldConfig = FieldConfig(coordinates: Coords, required: bool, dataType: string)

  /** The configuration dictionary. */
  datatype Config = Config(
    formFields: map<string, FieldConfig>,
    ocrSettings: map<string, Setting>,
    outputSettings: map<string, Setting>)

  /** The fields of the cancellation and refund form, in order. */
  const DefaultFields: seq<string> := [
    "Ad Soyad",
    "Cep Telefonu Numarası",
    "E-Posta Adresi",
    "PARAM Hesap & Kart Numarası",
    "Kart üzerindeki Ad Soyad",
    "Kart Numarasının Son 4 Hanesi",
    "Kartın Ait Olduğu Banka",
    "IBAN Numarası",
    "IBAN Sahibinin Ad Soyadı",
    "İşlem Tarihi",
    "İşlem Tutarı",
    "İade Edilecek Tutar",
    "İptal & İade Nedeni",
    "Tarih"
  ]

  /** The entry every default field starts with: no coordinates yet. */
  const BlankField: FieldConfig := FieldConfig(None, true, "text")

  const DefaultOcrSettings: map<string, Setting> := map[
    "model_type" := Text("trocr"),
    "language" := Text("tur+eng"),
    "preprocess" := Flag(true),
    "confidence_threshold" := Number(0.5)
  ]

  const DefaultOutputSettings: map<string, Setting> := map[
    "format" := Text("json"),
    "encoding" := Text("utf-8"),
    "pretty_print" := Flag(true)
  ]

  /** What `create_default_config` builds. */
  function DefaultConfig(): Config {
    Config(map f | f in DefaultFields :: BlankField, DefaultOcrSettings, DefaultOutputSettings)
  }

  /** No name occurs twice. */
  predicate Distinct(names: seq<string>) {
    forall i, j | 0 <= i < j < |names| :: names[i] != names[j]
  }

  /** A list of distinct names has as many names as its set. */
  lemma {:induction false} DistinctCount(names: seq<string>)
    requires Distinct(names)
    ensures |set f | f in names| == |names|
  {
    if names != [] {
      var n := |names| - 1;
      var front := names[..n];
      assert Distinct(front);
      DistinctCount(front);
      assert (set f | f in names) == (set f | f in front) + {names[n]};
      assert names[n] !in front;
    }
  }

  lemma DefaultFieldsDistinct()
    ensures Distinct(DefaultFields)
  {
  }

  /** The default configuration has exactly the 14 form fields, each
      without coordinates, required and of type text. */
  lemma DefaultConfigShape()
    ensures |DefaultConfig().formFields| == 14
    ensures forall f | f in DefaultConfig().formFields :: DefaultConfig().formFields[f] == BlankField
    ensures forall f | f in DefaultConfig().formFields :: !Truthy(DefaultConfig().formFields[f].coordinates)
  {
    assert DefaultConfig().formFields.Keys == set f | f in DefaultFields;
    DefaultFieldsDistinct();
    DistinctCount(DefaultFields);
  }

  // ---------------------------------------------------------------------
  // The changes each operation makes to the loaded configuration

  /** `config["form_fields"][name]["coordinates"] = coordinates`. */
  function WithCoordinates(c: Config, name: string, coordinates: Coords): Config
    requires name in c.formFields
  {
    c.(formFields := c.formFields[name := c.formFields[name].(coordinates := coordinates)])
  }

  /** What `get_field_coordinates` returns for a configuration. */
  function FieldCoordinates(c: Config, name: string): Coords {
    if name in c.formFields then c.formFields[name].coordinates else None
  }

  /** What `get_all_coordinates` returns: the fields with truthy
      coordinates, mapped to those coordinates. */
  function AllCoordinates(c: Config): map<string, seq<int>> {
    map f | f in c.formFields && Truthy(c.formFields[f].coordinates) :: c.formFields[f].coordinates.value
  }

  /** `config["form_fields"][name] = field`. */
  function WithField(c: Config, name: string, field: FieldConfig): Config {
    c.(formFields := c.formFields[name := field])
  }

  /** `del config["form_fields"][name]`. */
  function WithoutField(c: Config, name: string): Config {
    c.(formFields := c.formFields - {name})
  }

  /** `config["ocr_settings"].update(settings)`. */
  function WithOcrSettings(c: Config, settings: map<string, Setting>): Config {
    c.(ocrSettings := c.ocrSettings + settings)
  }

  /** The import loop: each template field is written into `form_fields`. */
  function WithTemplate(c: Config, template: map<string, FieldConfig>): Config {
    c.(formFields := c.formFields + template)
  }

  /** The `form_fields` of a template `export_template` writes: each field
      with the given coordinates, required and of type text. */
  function ExportFields(coordinates: map<string, seq<int>>): map<string, FieldConfig> {
    map f | f in coordinates :: FieldConfig(Some(coordinates[f]), true, "text")
  }

  // ---------------------------------------------------------------------
  // Properties of the changes

  /** Updating coordinates changes only that field's coordinates: reading
      them back gives the new value, and every other field, every other
      attribute of the field and the settings are unchanged. */
  lemma CoordinatesUpdate(c: Config, name: string, coordinates: Coords)
    requires name in c.formFields
    ensures var d := WithCoordinates(c, name, coordinates);
      && FieldCoordinates(d, name) == coordinates
      && d.formFields.Keys == c.formFields.Keys
      && d.formFields[name].required == c.formFields[name].required
      && d.formFields[name].dataType == c.formFields[name].dataType
      && (forall f | f in c.formFields && f != name :: d.formFields[f] == c.formFields[f])
      && d.ocrSettings == c.ocrSettings && d.outputSettings == c.outputSettings
  {
  }

  /** After non-empty coordinates are stored for a field, the field is among
      `get_all_coordinates` with those coordinates; an emptied field drops
      out of it. Other fields keep their entry or absence. */
  lemma AllCoordinatesAfterUpdate(c: Config, name: string, coordinates: seq<int>)
    requires name in c.formFields
    ensures var all := AllCoordinates(WithCoordinates(c, name, Some(coordinates)));
      && (|coordinates| > 0 ==> name in all && all[name] == coordinates)
      && (|coordinates| == 0 ==> name !in all)
      && (forall f | f != name :: (f in all <==> f in AllCoordinates(c)))
      && (forall f | f != name && f in all :: all[f] == AllCoordinates(c)[f])
  {
  }

  /** Adding a field and then removing it leaves the fields as removing it
      alone would; when the field was new, the configuration is restored. */
  lemma AddThenRemove(c: Config, name: string, field: FieldConfig)
    ensures WithoutField(WithField(c, name, field), name) == WithoutField(c, name)
    ensures name !in c.formFields ==> WithoutField(WithField(c, name, field), name) == c
  {
    assert c.formFields[name := field] - {name} == c.formFields - {name};
    if name !in c.formFields {
      assert c.formFields - {name} == c.formFields;
    }
  }

  /** Removing a field deletes that key only. */
  lemma RemoveFrame(c: Config, name: string)
    ensures var d := WithoutField(c, name);
      && d.formFields.Keys == c.formFields.Keys - {name}
      && (forall f | f in d.formFields :: d.formFields[f] == c.formFields[f])
      && d.ocrSettings == c.ocrSettings && d.outputSettings == c.outputSettings
  {
  }

  /** The supplied settings overwrite or insert their keys; every other
      setting is kept; applying the same update twice changes nothing more. */
  lemma OcrSettingsMerge(c: Config, settings: map<string, Setting>)
    ensures var d := WithOcrSettings(c, settings);
      && d.ocrSettings.Keys == c.ocrSettings.Keys + settings.Keys
      && (forall k | k in settings :: d.ocrSettings[k] == settings[k])
      && (forall k | k in c.ocrSettings && k !in settings :: d.ocrSettings[k] == c.ocrSettings[k])
      && d.formFields == c.formFields && d.outputSettings == c.outputSettings
      && WithOcrSettings(d, settings) == d
  {
    var d := WithOcrSettings(c, settings);
    assert d.ocrSettings + settings == d.ocrSettings;
  }

  /** Importing a template writes each template field and leaves the fields
      it does not name unchanged. */
  lemma TemplateFrame(c: Config, template: map<string, FieldConfig>)
    ensures var d := WithTemplate(c, template);
      && d.formFields.Keys == c.formFields.Keys + template.Keys
      && (forall f | f in template :: d.formFields[f] == template[f])
      && (forall f | f in c.formFields && f !in template :: d.formFields[f] == c.formFields[f])
      && d.ocrSettings == c.ocrSettings && d.outputSettings == c.outputSettings
  {
  }

  /** Exporting a configuration's coordinates as a template and importing
      it back leaves `get_all_coordinates` unchanged. */
  lemma {:induction false} ExportImportCoordinates(c: Config)
    ensures AllCoordinates(WithTemplate(c, ExportFields(AllCoordinates(c)))) == AllCoordinates(c)
  {
    var all := AllCoordinates(c);
    var d := WithTemplate(c, ExportFields(all));
    forall f | f in d.formFields
      ensures Truthy(d.formFields[f].coordinates) <==> f in all
      ensures f in all ==> d.formFields[f].coordinates.value == all[f]
    {
      if f in all {
        assert d.formFields[f] == FieldConfig(Some(all[f]), true, "text");
      } else {
        assert d.formFields[f] == c.formFields[f];
      }
    }
    assert AllCoordinates(d).Keys == all.Keys;
  }

  /** The loop of `get_all_coordinates`: keeps the fields whose
      coordinates are truthy, mapped to those coordinates. */
  method TruthyCoordinates(fields: map<string, FieldConfig>) returns (coordinates: map<string, seq<int>>)
    ensures coordinates.Keys == set f | f in fields && Truthy(fields[f].coordinates)
    ensures forall f | f in coordinates :: Some(coordinates[f]) == fields[f].coordinates
  {
    coordinates := map[];
    var pending := fields.Keys;
    while pending != {}
      invariant pending <= fields.Keys
      invariant coordinates.Keys == set f | f in fields && f !in pending && Truthy(fields[f].coordinates)
      invariant forall f | f in coordinates :: Some(coordinates[f]) == fields[f].coordinates
      decreases pending
    {
      var name :| name in pending;
      var field := fields[name];
      if field.coordinates.Some? && |field.coordinates.value| > 0 {
        coordinates := coordinates[name := field.coordinates.value];
      }
      pending := pending - {name};
    }
  }

  /** The loop of `create_default_config`: one blank entry per name. */
  method BlankFields(names: seq<string>) returns (fields: map<string, FieldConfig>)
    ensures fields.Keys == set f | f in names
    ensures forall f | f in fields :: fields[f] == BlankField
  {
    fields := map[];
    for i := 0 to |names|
      invariant fields.Keys == set f | f in names[..i]
      invariant forall f | f in fields :: fields[f] == BlankField
    {
      assert names[..i + 1] == names[..i] + [names[i]];
      fields := fields[names[i] := BlankField];
    }
    assert names[..|names|] == names;
  }

  /** The loop of `import_template`: each template field is written into
      the form fields in turn. */
  method MergeFields(formFields: map<string, FieldConfig>, template: map<string, FieldConfig>)
    returns (merged: map<string, FieldConfig>)
    ensures merged.Keys == formFields.Keys + template.Keys
    ensures forall f | f in template :: merged[f] == template[f]
    ensures forall f | f in formFields && f !in template :: merged[f] == formFields[f]
  {
    merged := formFields;
    var pending := template.Keys;
    while pending != {}
      invariant pending <= template.Keys
      invariant merged.Keys == formFields.Keys + (template.Keys - pending)
      invariant forall f | f in template && f !in pending :: merged[f] == template[f]
      invariant forall f | f in formFields && f !in template.Keys - pending :: merged[f] == formFields[f]
      decreases pending
    {
      var name :| name in pending;
      merged := merged[name := template[name]];
      pending := pending - {name};
    }
  }

  // ---------------------------------------------------------------------
  // The manager object

  class ConfigManager {
    /** The parsed content of the configuration file; `None` when it is
        missing, reading it raises `IOError`, or it is not valid JSON. A
        file that is not valid UTF-8 raises out of `load_config` instead;
        that case is not modelled. */
    var stored: Option<Config>

    constructor (file: Option<Config>)
      ensures stored == file
    {
      stored := file;
    }

    /** `load_config`: the stored configuration, or the default one. */
    function LoadConfig(): Config
      reads this
    {
      match stored
      case None => DefaultConfig()
      case Some(c) => c
    }

    /** `save_config`: `ok` says whether the write succeeded. */
    method SaveConfig(config: Config, ok: bool) returns (saved: bool)
      modifies this
      ensures saved == ok
      ensures stored == if ok then Some(config) else old(stored)
    {
      if ok {
        stored := Some(config);
      }
      saved := ok;
    }

    /** `create_default_config`: the settings, then one blank entry per
        default field, added in a loop. */
    method CreateDefaultConfig() returns (config: Config)
      ensures config == DefaultConfig()
    {
      var fields := BlankFields(DefaultFields);
      config := Config(fields, DefaultOcrSettings, DefaultOutputSettings);
    }

    /** `update_field_coordinates`: `False` without saving for an unknown
        field, otherwise the result of saving the updated configuration. */
    method UpdateFieldCoordinates(name: string, coordinates: seq<int>, saveOk: bool) returns (ok: bool)
      modifies this
      ensures var c := old(LoadConfig());
        if name in c.formFields then
          ok == saveOk
          && stored == if saveOk then Some(WithCoordinates(c, name, Some(coordinates))) else old(stored)
        else
          !ok && stored == old(stored)
    {
      var config := LoadConfig();
      if name in config.formFields {
        config := WithCoordinates(config, name, Some(coordinates));
        ok := SaveConfig(config, saveOk);
      } else {
        ok := false;
      }
    }

    /** `get_field_coordinates`. */
    method GetFieldCoordinates(name: string) returns (coordinates: Coords)
      ensures coordinates == FieldCoordinates(LoadConfig(), name)
    {
      var config := LoadConfig();
      if name in config.formFields {
        return config.formFields[name].coordinates;
      }
      return None;
    }

    /** `get_all_coordinates`. */
    method GetAllCoordinates() returns (coordinates: map<string, seq<int>>)
      ensures coordinates == AllCoordinates(LoadConfig())
    {
      var config := LoadConfig();
      coordinates := TruthyCoordinates(config.formFields);
    }

    /** `add_custom_field`: inserts or overwrites the entry, without
        coordinates, and saves. */
    method AddCustomField(name: string, required: bool, dataType: string, saveOk: bool) returns (ok: bool)
      modifies this
      ensures ok == saveOk
      ensures stored == if saveOk then Some(WithField(old(LoadConfig()), name, FieldConfig(None, required, dataType)))
                        else old(stored)
    {
      var config := LoadConfig();
      config := WithField(config, name, FieldConfig(None, required, dataType));
      ok := SaveConfig(config, saveOk);
    }

    /** `remove_field`: `False` without saving for an unknown field,
        otherwise the result of saving without it. */
    method RemoveField(name: string, saveOk: bool) returns (ok: bool)
      modifies this
      ensures var c := old(LoadConfig());
        if name in c.formFields then
          ok == saveOk && stored == if saveOk then Some(WithoutField(c, name)) else old(stored)
        else
          !ok && stored == old(stored)
    {
      var config := LoadConfig();
      if name in config.formFields {
        config := WithoutField(config, name);
        ok := SaveConfig(config, saveOk);
      } else {
        ok := false;
      }
    }

    /** `get_ocr_settings`. */
    method GetOcrSettings() returns (settings: map<string, Setting>)
      ensures settings == LoadConfig().ocrSettings
    {
      var config := LoadConfig();
      settings := config.ocrSettings;
    }

    /** `update_ocr_settings`: merges the settings and saves. */
    method UpdateOcrSettings(settings: map<string, Setting>, saveOk: bool) returns (ok: bool)
      modifies this
      ensures ok == saveOk
      ensures stored == if saveOk then Some(WithOcrSettings(old(LoadConfig()), settings)) else old(stored)
    {
      var config := LoadConfig();
      config := WithOcrSettings(config, settings);
      ok := SaveConfig(config, saveOk);
    }

    /** `import_template`: `template` is the `form_fields` of the parsed
        template file, `None` when reading it raised `IOError` or it was not
        valid JSON. Each
        template field is written in a loop, then the configuration is
        saved. */
    method ImportTemplate(template: Option<map<string, FieldConfig>>, saveOk: bool) returns (ok: bool)
      modifies this
      ensures template.None? ==> !ok && stored == old(stored)
      ensures template.Some? ==>
        ok == saveOk
        && stored == if saveOk then Some(WithTemplate(old(LoadConfig()), template.value)) else old(stored)
    {
      if template.None? {
        return false;
      }
      var config := LoadConfig();
      var merged := MergeFields(config.formFields, template.value);
      assert merged == config.formFields + template.value;
      config := config.(formFields := merged);
      ok := SaveConfig(config, saveOk);
    }
  }
}
