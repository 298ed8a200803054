/**
 * The configuration of the enhanced server: seven settings sections with
 * their defaults, read from a JSON file, overridden from the environment
 * and updated by name.
 *
 * A section is a dataclass whose attributes are set by name, so it is a
 * dictionary from field name to value, in declaration order; a value keeps
 * whatever type it was given, which decides how an environment variable is
 * converted later. The file system and the environment are parameters:
 * which paths exist, what reading and parsing a file gives, the
 * environment's variables, and `float` on text.
 */
module Settings {
  import opened Wrappers
  import opened Strings
  import opened Dicts
  import Decimal
  import StreamInfos

  /** A value a settings field can hold. */
  datatype Value = Null | Bool(b: bool) | Int(i: int) | Float(x: real) | Str(s: string) | List(items: seq<Value>)

  /** A section's fields by name, in declaration order. */
  type Section = Dict<string, Value>

  /** The attributes of `MarkItDownConfig`. */
  datatype SectionName = Converters | Llm | Azure | Ocr | Audio | Server | Conversion

  /** `MarkItDownConfig` */
  datatype Config = Config(converters: Section, llm: Section, azure: Section, ocr: Section,
                           audio: Section, server: Section, conversion: Section)

  // ================================================================ defaults

  const ConverterDefaults: Section :=
    [("enable_builtins", Bool(true)), ("enable_plugins", Bool(true)), ("korean_support", Bool(true)), ("max_workers", Int(4))]
  const LlmDefaults: Section :=
    [("openai_api_key", Null), ("llm_model", Str("gpt-4o")), ("max_tokens", Int(300)), ("temperature", Float(0.1))]
  const AzureDefaults: Section :=
    [("endpoint", Null), ("key", Null), ("enabled", Bool(false))]
  const OcrDefaults: Section :=
    [("tesseract_path", Null), ("easyocr_enabled", Bool(true)), ("tesseract_enabled", Bool(true)),
     ("languages", List([Str("ko"), Str("en")]))]
  const AudioDefaults: Section :=
    [("whisper_model", Str("base")), ("local_whisper_enabled", Bool(true)), ("openai_whisper_enabled", Bool(false))]
  const ServerDefaults: Section :=
    [("log_level", Str("INFO")), ("log_file", Null), ("enable_cors", Bool(false)), ("max_file_size_mb", Int(100))]
  const ConversionDefaults: Section :=
    [("include_metadata", Bool(false)), ("extract_images", Bool(false)), ("korean_optimization", Bool(false)),
     ("preserve_formatting", Bool(true))]

  /** A freshly constructed section of each kind. */
  function Defaults(s: SectionName): Section
  {
    match s
    case Converters => ConverterDefaults
    case Llm => LlmDefaults
    case Azure => AzureDefaults
    case Ocr => OcrDefaults
    case Audio => AudioDefaults
    case Server => ServerDefaults
    case Conversion => ConversionDefaults
  }

  /** `MarkItDownConfig()` */
  const DefaultConfig: Config :=
    Config(ConverterDefaults, LlmDefaults, AzureDefaults, OcrDefaults, AudioDefaults, ServerDefaults, ConversionDefaults)

  // ================================================================ sections by name

  /** The sections in declaration order. */
  const AllSections: seq<SectionName> := [Converters, Llm, Azure, Ocr, Audio, Server, Conversion]

  lemma AllSectionsComplete()
    ensures forall s :: s in AllSections
  {
    forall s ensures s in AllSections {
      var k := match s
        case Converters => 0 case Llm => 1 case Azure => 2 case Ocr => 3
        case Audio => 4 case Server => 5 case Conversion => 6;
      assert AllSections[k] == s;
    }
  }

  /** The attribute name of a section. */
  function Name(s: SectionName): string
  {
    match s
    case Converters => "converters"
    case Llm => "llm"
    case Azure => "azure"
    case Ocr => "ocr"
    case Audio => "audio"
    case Server => "server"
    case Conversion => "conversion"
  }

  /** Distinct sections have distinct names. */
  lemma NameInjective(s: SectionName, t: SectionName)
    ensures Name(s) == Name(t) ==> s == t
  {
    if Name(s) == Name(t) {
      var n := Name(s);
      match s
      case Converters => assert |n| == 10 && n[6] == 't';
      case Llm => assert n[0] == 'l';
      case Azure => assert n[1] == 'z';
      case Ocr => assert n[0] == 'o';
      case Audio => assert n[1] == 'u';
      case Server => assert |n| == 6;
      case Conversion => assert |n| == 10 && n[6] == 's';
    }
  }

  /** The first of `ss` with this name. */
  function Lookup(name: string, ss: seq<SectionName>): (r: Option<SectionName>)
    ensures r.Some? ==> Name(r.value) == name && r.value in ss
    ensures r.None? ==> forall t :: t in ss ==> Name(t) != name
    decreases |ss|
  {
    if ss == [] then None
    else if Name(ss[0]) == name then Some(ss[0])
    else Lookup(name, ss[1..])
  }

  /** `hasattr(config, name)` for a section: the section of that name, if any. */
  function SectionNamed(name: string): (r: Option<SectionName>)
    ensures r.Some? ==> Name(r.value) == name
    ensures r.None? ==> forall s :: Name(s) != name
  {
    AllSectionsComplete();
    Lookup(name, AllSections)
  }

  /** Every section is found by its own name. */
  lemma NamedRoundTrip(s: SectionName)
    ensures SectionNamed(Name(s)) == Some(s)
  {
    NameInjective(SectionNamed(Name(s)).value, s);
  }

  /** `getattr(config, name)` */
  function SectionOf(c: Config, s: SectionName): Section
  {
    match s
    case Converters => c.converters
    case Llm => c.llm
    case Azure => c.azure
    case Ocr => c.ocr
    case Audio => c.audio
    case Server => c.server
    case Conversion => c.conversion
  }

  /** `setattr(config, name, sec)`: that section is replaced and no other. */
  function WithSection(c: Config, s: SectionName, sec: Section): (r: Config)
    ensures forall t :: SectionOf(r, t) == if t == s then sec else SectionOf(c, t)
  {
    match s
    case Converters => c.(converters := sec)
    case Llm => c.(llm := sec)
    case Azure => c.(azure := sec)
    case Ocr => c.(ocr := sec)
    case Audio => c.(audio := sec)
    case Server => c.(server := sec)
    case Conversion => c.(conversion := sec)
  }

  /** `getattr(section, field)`, `None` when the section has no such field. */
  function Field(c: Config, s: SectionName, field: string): Option<Value>
  {
    Get(SectionOf(c, s), field)
  }

  /** `setattr(getattr(config, s), field, v)` */
  function SetField(c: Config, s: SectionName, field: string, v: Value): Config
  {
    WithSection(c, s, Set(SectionOf(c, s), field, v))
  }

  /** Setting a field changes that field alone. */
  lemma SetFieldSpec(c: Config, s: SectionName, field: string, v: Value, t: SectionName, f: string)
    ensures Field(SetField(c, s, field, v), t, f) == if t == s && f == field then Some(v) else Field(c, t, f)
  {
    if t == s {
      SetGet(SectionOf(c, s), field, v, f);
    }
  }

  /** `hasattr(getattr(config, s), field)` */
  predicate HasField(c: Config, s: SectionName, field: string)
  {
    HasKey(SectionOf(c, s), field)
  }

  /** Two configurations whose sections have the same fields in the same order. */
  predicate SameShape(a: Config, b: Config)
  {
    forall s :: Keys(SectionOf(a, s)) == Keys(SectionOf(b, s))
  }

  /** Configurations of the same shape have the same fields. */
  lemma SameShapeFields(a: Config, b: Config, s: SectionName, field: string)
    requires SameShape(a, b)
    ensures HasField(a, s, field) <==> HasField(b, s, field)
  {
    SameKeysHasKey(SectionOf(a, s), SectionOf(b, s), field);
  }

  /** Setting a field that exists keeps the shape. */
  lemma SetFieldShape(c: Config, s: SectionName, field: string, v: Value)
    requires HasField(c, s, field)
    ensures SameShape(SetField(c, s, field, v), c)
  {
    SetKeys(SectionOf(c, s), field, v);
  }

  /** Every section has exactly the fields of its dataclass, in declaration order. */
  predicate Shaped(c: Config)
  {
    forall s :: Keys(SectionOf(c, s)) == Keys(Defaults(s))
  }

  /** A fresh configuration has its dataclasses' fields. */
  lemma DefaultShaped()
    ensures Shaped(DefaultConfig)
  {
    forall s ensures SectionOf(DefaultConfig, s) == Defaults(s) {
    }
  }

  /** What has the shape of a well-shaped configuration is well shaped. */
  lemma ShapedTransport(a: Config, b: Config)
    requires Shaped(b) && SameShape(a, b)
    ensures Shaped(a)
  {
  }

  /** A configuration of the right shape has a field exactly where a fresh section has. */
  lemma ShapedFields(c: Config, s: SectionName, field: string)
    requires Shaped(c)
    ensures HasField(c, s, field) <==> HasKey(Defaults(s), field)
  {
    SameKeysHasKey(SectionOf(c, s), Defaults(s), field);
  }

  // ================================================================ _dict_to_config

  /**
   * `SectionClass(**given)` for a section present in the file: the defaults
   * with the given fields assigned, or `None` (a `TypeError`) when a given
   * name is not a field. An absent section is the default one.
   */
  function Construct(defaults: Section, given: Option<Section>): (r: Option<Section>)
    ensures r.Some? <==> (given.None? || forall i :: 0 <= i < |given.value| ==> HasKey(defaults, given.value[i].0))
  {
    if given.None? then Some(defaults)
    else if forall i :: 0 <= i < |given.value| ==> HasKey(defaults, given.value[i].0) then Some(Update(defaults, given.value))
    else None
  }

  /**
   * A constructed section has the dataclass's fields; an absent section is
   * the default one; a field the file does not name keeps its default, and
   * a field it names takes the value the file gives it last.
   */
  lemma ConstructSpec(defaults: Section, given: Option<Section>, field: string)
    requires Construct(defaults, given).Some?
    ensures Keys(Construct(defaults, given).value) == Keys(defaults)
    ensures given.None? ==> Construct(defaults, given).value == defaults
    ensures given.Some? && (forall i :: 0 <= i < |given.value| ==> given.value[i].0 != field) ==>
      Get(Construct(defaults, given).value, field) == Get(defaults, field)
    ensures given.Some? ==> forall i :: (0 <= i < |given.value| && given.value[i].0 == field
      && (forall j :: i < j < |given.value| ==> given.value[j].0 != field)) ==>
      Get(Construct(defaults, given).value, field) == Some(given.value[i].1)
  {
    if given.Some? {
      UpdateKeys(defaults, given.value);
      if forall i :: 0 <= i < |given.value| ==> given.value[i].0 != field {
        UpdateUntouched(defaults, given.value, field);
      }
      forall i | 0 <= i < |given.value| && given.value[i].0 == field
        && (forall j :: i < j < |given.value| ==> given.value[j].0 != field)
        ensures Get(Construct(defaults, given).value, field) == Some(given.value[i].1)
      {
        UpdateLast(defaults, given.value, i);
      }
    }
  }

  /** Section `s` rebuilt over `base` from the parsed file's object of that name. */
  function Built(base: Config, data: Dict<string, Section>, s: SectionName): Option<Section>
  {
    Construct(SectionOf(base, s), Get(data, Name(s)))
  }

  /** Every section the file names rebuilt over `base`, or `TypeError`. */
  function ConfigFrom(base: Config, data: Dict<string, Section>): (r: Outcome<Config>)
    ensures r.Raised? <==> exists s :: Built(base, data, s).None?
  {
    if exists s :: Built(base, data, s).None? then Raised(TypeError("unexpected keyword argument"))
    else
      Returned(Config(Built(base, data, Converters).value, Built(base, data, Llm).value, Built(base, data, Azure).value,
                      Built(base, data, Ocr).value, Built(base, data, Audio).value, Built(base, data, Server).value,
                      Built(base, data, Conversion).value))
  }

  /** Each section of a rebuilt configuration is the one rebuilt from the file's object of its name. */
  lemma ConfigFromSection(base: Config, data: Dict<string, Section>, s: SectionName)
    requires ConfigFrom(base, data).Returned?
    ensures Built(base, data, s).Some? && SectionOf(ConfigFrom(base, data).value, s) == Built(base, data, s).value
  {
  }

  /** A configuration rebuilt from a file has the shape of `base`. */
  lemma ConfigFromShape(base: Config, data: Dict<string, Section>)
    requires ConfigFrom(base, data).Returned?
    ensures SameShape(ConfigFrom(base, data).value, base)
  {
    forall t ensures Keys(SectionOf(ConfigFrom(base, data).value, t)) == Keys(SectionOf(base, t)) {
      ConfigFromSection(base, data, t);
      ConstructSpec(SectionOf(base, t), Get(data, Name(t)), "");
    }
  }

  /**
   * In a rebuilt configuration, a section the file does not name is
   * `base`'s; in a section it names, a field it does not mention keeps
   * `base`'s value and one it mentions takes the file's.
   */
  lemma ConfigFromField(base: Config, data: Dict<string, Section>, s: SectionName, field: string)
    requires ConfigFrom(base, data).Returned?
    ensures Get(data, Name(s)).None? ==> SectionOf(ConfigFrom(base, data).value, s) == SectionOf(base, s)
    ensures var given := Get(data, Name(s));
      given.Some? && (forall i :: 0 <= i < |given.value| ==> given.value[i].0 != field) ==>
      Field(ConfigFrom(base, data).value, s, field) == Field(base, s, field)
    ensures var given := Get(data, Name(s));
      given.Some? ==> forall i :: (0 <= i < |given.value| && given.value[i].0 == field
        && (forall j :: i < j < |given.value| ==> given.value[j].0 != field)) ==>
        Field(ConfigFrom(base, data).value, s, field) == Some(given.value[i].1)
  {
    ConfigFromSection(base, data, s);
    var built := SectionOf(ConfigFrom(base, data).value, s);
    var given := Get(data, Name(s));
    assert built == Construct(SectionOf(base, s), given).value;
    ConstructSpec(SectionOf(base, s), given, field);
    assert Field(ConfigFrom(base, data).value, s, field) == Get(built, field);
  }

  /**
   * `_dict_to_config(data)`: over a fresh configuration, each section the
   * file names is rebuilt from its object; a name that is not a field
   * raises `TypeError`.
   */
  function DictToConfig(data: Dict<string, Section>): Outcome<Config>
  {
    ConfigFrom(DefaultConfig, data)
  }

  /** A configuration built from a file has the dataclasses' fields and the defaults the file does not override. */
  lemma DictToConfigSpec(data: Dict<string, Section>, s: SectionName, field: string)
    requires DictToConfig(data).Returned?
    ensures Shaped(DictToConfig(data).value)
    ensures Get(data, Name(s)).None? ==> SectionOf(DictToConfig(data).value, s) == Defaults(s)
    ensures var given := Get(data, Name(s));
      given.Some? && (forall i :: 0 <= i < |given.value| ==> given.value[i].0 != field) ==>
      Field(DictToConfig(data).value, s, field) == Get(Defaults(s), field)
  {
    ConfigFromShape(DefaultConfig, data);
    ConfigFromField(DefaultConfig, data, s, field);
    DefaultShaped();
    ShapedTransport(DictToConfig(data).value, DefaultConfig);
    assert SectionOf(DefaultConfig, s) == Defaults(s);
  }

  // ================================================================ _load_from_environment

  /** The variables `_load_from_environment` reads, each with the section and field it sets. */
  const EnvMappings: seq<(string, SectionName, string)> := [
    ("OPENAI_API_KEY", Llm, "openai_api_key"),
    ("LLM_MODEL", Llm, "llm_model"),
    ("AZURE_DOCUMENT_INTELLIGENCE_ENDPOINT", Azure, "endpoint"),
    ("AZURE_DOCUMENT_INTELLIGENCE_KEY", Azure, "key"),
    ("TESSERACT_PATH", Ocr, "tesseract_path"),
    ("WHISPER_MODEL", Audio, "whisper_model"),
    ("LOG_LEVEL", Server, "log_level"),
    ("LOG_FILE", Server, "log_file"),
    ("KOREAN_SUPPORT", Converters, "korean_support"),
    ("MAX_WORKERS", Converters, "max_workers")]

  /** Every mapped field exists in `c`, so `getattr` finds it. */
  predicate Covers(c: Config, mappings: seq<(string, SectionName, string)>)
  {
    forall i :: 0 <= i < |mappings| ==> HasField(c, mappings[i].1, mappings[i].2)
  }

  /** No two mappings set the same field. */
  predicate TargetsDistinct(mappings: seq<(string, SectionName, string)>)
  {
    forall i, j :: 0 <= i < j < |mappings| ==> (mappings[i].1, mappings[i].2) != (mappings[j].1, mappings[j].2)
  }

  lemma CoversSuffix(c: Config, mappings: seq<(string, SectionName, string)>, k: nat)
    requires Covers(c, mappings) && k <= |mappings|
    ensures Covers(c, mappings[k..])
  {
    forall i | 0 <= i < |mappings| - k ensures HasField(c, mappings[k..][i].1, mappings[k..][i].2) {
      assert mappings[k..][i] == mappings[k + i];
    }
  }

  lemma DistinctTail(mappings: seq<(string, SectionName, string)>)
    requires TargetsDistinct(mappings) && mappings != []
    ensures TargetsDistinct(mappings[1..])
  {
    var rest := mappings[1..];
    forall i, j | 0 <= i < j < |rest| ensures (rest[i].1, rest[i].2) != (rest[j].1, rest[j].2) {
      assert rest[i] == mappings[i + 1] && rest[j] == mappings[j + 1];
    }
  }

  lemma CoversTransport(a: Config, b: Config, mappings: seq<(string, SectionName, string)>)
    requires SameShape(a, b) && Covers(b, mappings)
    ensures Covers(a, mappings)
  {
    forall i | 0 <= i < |mappings| ensures HasField(a, mappings[i].1, mappings[i].2) {
      SameShapeFields(a, b, mappings[i].1, mappings[i].2);
    }
  }

  /** The mappings name fields a fresh configuration has. */
  lemma EnvFieldsExist()
    ensures forall i :: 0 <= i < |EnvMappings| ==> HasKey(Defaults(EnvMappings[i].1), EnvMappings[i].2)
  {
    assert LlmDefaults[0].0 == EnvMappings[0].2 && LlmDefaults[1].0 == EnvMappings[1].2;
    assert AzureDefaults[0].0 == EnvMappings[2].2 && AzureDefaults[1].0 == EnvMappings[3].2;
    assert OcrDefaults[0].0 == EnvMappings[4].2 && AudioDefaults[0].0 == EnvMappings[5].2;
    assert ServerDefaults[0].0 == EnvMappings[6].2 && ServerDefaults[1].0 == EnvMappings[7].2;
    assert ConverterDefaults[2].0 == EnvMappings[8].2 && ConverterDefaults[3].0 == EnvMappings[9].2;
  }

  /** The mappings name each field once. */
  lemma EnvTargetsDistinct()
    ensures TargetsDistinct(EnvMappings)
  {
    forall i, j | 0 <= i < j < |EnvMappings|
      ensures (EnvMappings[i].1, EnvMappings[i].2) != (EnvMappings[j].1, EnvMappings[j].2)
    {
      if EnvMappings[i].1 == EnvMappings[j].1 {
        assert |EnvMappings[i].2| != |EnvMappings[j].2|;
      }
    }
  }

  /** Every well-shaped configuration has the mapped fields. */
  lemma ShapedCovers(c: Config)
    requires Shaped(c)
    ensures Covers(c, EnvMappings)
  {
    EnvFieldsExist();
    forall i | 0 <= i < |EnvMappings| ensures HasField(c, EnvMappings[i].1, EnvMappings[i].2) {
      ShapedFields(c, EnvMappings[i].1, EnvMappings[i].2);
    }
  }

  /** The lower-cased values that read as true. */
  const TrueWords: seq<string> := ["true", "1", "yes", "on"]

  /**
   * The conversion by the field's current type: a `bool` field reads
   * "true", "1", "yes" and "on" (in any case) as true and anything else as
   * false; an `int` field takes `int(raw)` and is left alone (`None`) when
   * that fails, likewise a `float` field; any other field takes the text.
   */
  function Convert(current: Value, raw: string, parseFloat: string -> Option<real>): (r: Option<Value>)
    ensures current.Bool? ==> r.Some? && r.value.Bool? && (r.value.b <==> Lower(raw) in TrueWords)
    ensures current.Int? ==> (r.Some? <==> Decimal.ParseInt(raw).Some?)
    ensures current.Int? && r.Some? ==> r.value == Int(Decimal.ParseInt(raw).value)
    ensures current.Float? ==> (r.Some? <==> parseFloat(raw).Some?)
    ensures current.Float? && r.Some? ==> r.value == Float(parseFloat(raw).value)
    ensures !current.Bool? && !current.Int? && !current.Float? ==> r == Some(Str(raw))
  {
    match current
    case Bool(_) => Some(Bool(Lower(raw) in TrueWords))
    case Int(_) => if Decimal.ParseInt(raw).Some? then Some(Int(Decimal.ParseInt(raw).value)) else None
    case Float(_) => if parseFloat(raw).Some? then Some(Float(parseFloat(raw).value)) else None
    case _ => Some(Str(raw))
  }

  /** One mapping: a variable that is set and converts assigns its field. */
  function ApplyMapping(c: Config, env: Dict<string, string>, m: (string, SectionName, string),
                        parseFloat: string -> Option<real>): (r: Config)
    requires HasField(c, m.1, m.2)
    ensures SameShape(r, c)
  {
    var raw := Get(env, m.0);
    GetSpec(SectionOf(c, m.1), m.2);
    if raw.None? then c
    else
      var v := Convert(Field(c, m.1, m.2).value, raw.value, parseFloat);
      if v.None? then c
      else
        SetFieldShape(c, m.1, m.2, v.value);
        SetField(c, m.1, m.2, v.value)
  }

  /** What mapping `m` assigns to its field: the converted variable, `None` when unset or not convertible. */
  function Assigned(c: Config, env: Dict<string, string>, m: (string, SectionName, string),
                    parseFloat: string -> Option<real>): Option<Value>
    requires HasField(c, m.1, m.2)
  {
    GetSpec(SectionOf(c, m.1), m.2);
    var raw := Get(env, m.0);
    if raw.None? then None else Convert(Field(c, m.1, m.2).value, raw.value, parseFloat)
  }

  /** One mapping sets its own field when its variable converts, and no other field. */
  lemma ApplyMappingSpec(c: Config, env: Dict<string, string>, m: (string, SectionName, string),
                         parseFloat: string -> Option<real>, s: SectionName, field: string)
    requires HasField(c, m.1, m.2)
    ensures Field(c, m.1, m.2).Some?
    ensures Field(ApplyMapping(c, env, m, parseFloat), s, field)
      == if (s, field) == (m.1, m.2) && Assigned(c, env, m, parseFloat).Some? then Assigned(c, env, m, parseFloat)
         else Field(c, s, field)
  {
    GetSpec(SectionOf(c, m.1), m.2);
    var v := Assigned(c, env, m, parseFloat);
    if v.Some? {
      SetFieldSpec(c, m.1, m.2, v.value, s, field);
    }
  }

  /** `_load_from_environment`, the mappings in order. */
  function EnvOverrides(c: Config, env: Dict<string, string>, mappings: seq<(string, SectionName, string)>,
                        parseFloat: string -> Option<real>): (r: Config)
    requires Covers(c, mappings)
    ensures SameShape(r, c)
    decreases |mappings|
  {
    if mappings == [] then c
    else
      var next := ApplyMapping(c, env, mappings[0], parseFloat);
      CoversSuffix(c, mappings, 1);
      CoversTransport(next, c, mappings[1..]);
      EnvOverrides(next, env, mappings[1..], parseFloat)
  }

  /** A field no mapping names is left as it was. */
  lemma {:induction false} EnvUntouched(c: Config, env: Dict<string, string>, mappings: seq<(string, SectionName, string)>,
                                        parseFloat: string -> Option<real>, s: SectionName, field: string)
    requires Covers(c, mappings)
    requires forall i :: 0 <= i < |mappings| ==> (mappings[i].1, mappings[i].2) != (s, field)
    ensures Field(EnvOverrides(c, env, mappings, parseFloat), s, field) == Field(c, s, field)
    decreases |mappings|
  {
    if mappings != [] {
      var m := mappings[0];
      var next := ApplyMapping(c, env, m, parseFloat);
      ApplyMappingSpec(c, env, m, parseFloat, s, field);
      CoversSuffix(c, mappings, 1);
      CoversTransport(next, c, mappings[1..]);
      EnvUntouched(next, env, mappings[1..], parseFloat, s, field);
    }
  }

  /** The first mapping's field ends up as it assigns it, when the later mappings name other fields. */
  lemma EnvSetsFirst(c: Config, env: Dict<string, string>, mappings: seq<(string, SectionName, string)>,
                     parseFloat: string -> Option<real>)
    requires Covers(c, mappings) && mappings != []
    requires forall i :: 1 <= i < |mappings| ==> (mappings[i].1, mappings[i].2) != (mappings[0].1, mappings[0].2)
    ensures var m := mappings[0];
      var v := Assigned(c, env, m, parseFloat);
      Field(EnvOverrides(c, env, mappings, parseFloat), m.1, m.2) == if v.Some? then v else Field(c, m.1, m.2)
  {
    var m := mappings[0];
    var next := ApplyMapping(c, env, m, parseFloat);
    var rest := mappings[1..];
    CoversSuffix(c, mappings, 1);
    CoversTransport(next, c, rest);
    forall i | 0 <= i < |rest| ensures (rest[i].1, rest[i].2) != (m.1, m.2) {
      assert rest[i] == mappings[i + 1];
    }
    calc {
      Field(EnvOverrides(c, env, mappings, parseFloat), m.1, m.2);
      Field(EnvOverrides(next, env, rest, parseFloat), m.1, m.2);
    == { EnvUntouched(next, env, rest, parseFloat, m.1, m.2); }
      Field(next, m.1, m.2);
    == { ApplyMappingSpec(c, env, m, parseFloat, m.1, m.2); }
      var v := Assigned(c, env, m, parseFloat); if v.Some? then v else Field(c, m.1, m.2);
    }
  }

  /**
   * The field of mapping `k` ends up as that mapping assigns it: converted
   * from its variable when the variable is set and converts, and as it was
   * when the variable is unset or does not convert (an invalid integer,
   * say).
   */
  lemma {:induction false} EnvSets(c: Config, env: Dict<string, string>, mappings: seq<(string, SectionName, string)>,
                                   parseFloat: string -> Option<real>, k: nat)
    requires Covers(c, mappings) && TargetsDistinct(mappings) && k < |mappings|
    ensures var m := mappings[k];
      var v := Assigned(c, env, m, parseFloat);
      Field(EnvOverrides(c, env, mappings, parseFloat), m.1, m.2) == if v.Some? then v else Field(c, m.1, m.2)
    decreases k
  {
    if k == 0 {
      EnvSetsFirst(c, env, mappings, parseFloat);
    } else {
      var next := ApplyMapping(c, env, mappings[0], parseFloat);
      CoversSuffix(c, mappings, 1);
      CoversTransport(next, c, mappings[1..]);
      DistinctTail(mappings);
      EnvSets(next, env, mappings[1..], parseFloat, k - 1);
      EnvSetsLater(c, env, mappings, parseFloat, k);
    }
  }

  /** The step of `EnvSets` past the first mapping, given its result for the rest. */
  lemma EnvSetsLater(c: Config, env: Dict<string, string>, mappings: seq<(string, SectionName, string)>,
                     parseFloat: string -> Option<real>, k: nat)
    requires Covers(c, mappings) && TargetsDistinct(mappings) && 0 < k < |mappings|
    requires Covers(ApplyMapping(c, env, mappings[0], parseFloat), mappings[1..])
    requires var next := ApplyMapping(c, env, mappings[0], parseFloat);
      var m := mappings[1..][k - 1];
      var v := Assigned(next, env, m, parseFloat);
      Field(EnvOverrides(next, env, mappings[1..], parseFloat), m.1, m.2) == if v.Some? then v else Field(next, m.1, m.2)
    ensures var m := mappings[k];
      var v := Assigned(c, env, m, parseFloat);
      Field(EnvOverrides(c, env, mappings, parseFloat), m.1, m.2) == if v.Some? then v else Field(c, m.1, m.2)
  {
    var m := mappings[k];
    var m0 := mappings[0];
    var next := ApplyMapping(c, env, m0, parseFloat);
    var rest := mappings[1..];
    assert (m.1, m.2) != (m0.1, m0.2);
    assert rest[k - 1] == m;
    ApplyMappingSpec(c, env, m0, parseFloat, m.1, m.2);
  }

  /**
   * One pass of the loop of `_load_from_environment`: a set variable is
   * converted by the type of the field's current value and assigned; an
   * integer or float that does not convert leaves the field as it was.
   */
  method ApplyOne(r: Config, env: Dict<string, string>, m: (string, SectionName, string),
                  parseFloat: string -> Option<real>) returns (r': Config)
    requires HasField(r, m.1, m.2)
    ensures r' == ApplyMapping(r, env, m, parseFloat)
  {
    var (envVar, section, fieldName) := m;
    r' := r;
    GetSpec(SectionOf(r, section), fieldName);
    var value := Get(env, envVar);
    if value.Some? {
      var current := Field(r, section, fieldName).value;
      var converted: Value;
      if current.Bool? {
        converted := Bool(Lower(value.value) in TrueWords);
      } else if current.Int? {
        var n := Decimal.ParseInt(value.value);
        if n.None? {
          return;
        }
        converted := Int(n.value);
      } else if current.Float? {
        var x := parseFloat(value.value);
        if x.None? {
          return;
        }
        converted := Float(x.value);
      } else {
        converted := Str(value.value);
      }
      assert Convert(current, value.value, parseFloat) == Some(converted);
      r' := SetField(r, section, fieldName, converted);
    }
  }

  /**
   * The loop of `_load_from_environment` over a mapping table, on a
   * configuration that has the mapped fields.
   */
  method ApplyEnvironment(config: Config, env: Dict<string, string>, mappings: seq<(string, SectionName, string)>,
                          parseFloat: string -> Option<real>) returns (r: Config)
    requires Covers(config, mappings)
    ensures r == EnvOverrides(config, env, mappings, parseFloat)
  {
    r := config;
    for i := 0 to |mappings|
      invariant SameShape(r, config)
      invariant Covers(r, mappings[i..])
      invariant EnvOverrides(r, env, mappings[i..], parseFloat) == EnvOverrides(config, env, mappings, parseFloat)
    {
      assert mappings[i..][0] == mappings[i] && mappings[i..][1..] == mappings[i + 1..];
      var next := ApplyOne(r, env, mappings[i], parseFloat);
      CoversSuffix(config, mappings, i + 1);
      CoversTransport(next, config, mappings[i + 1..]);
      r := next;
    }
  }

  /** `_load_from_environment(config)`: its mapping table applied to a configuration that has the mapped fields. */
  method LoadFromEnvironment(config: Config, env: Dict<string, string>, parseFloat: string -> Option<real>)
    returns (r: Config)
    requires Covers(config, EnvMappings)
    ensures r == EnvOverrides(config, env, EnvMappings, parseFloat)
  {
    r := ApplyEnvironment(config, env, EnvMappings, parseFloat);
  }

  // ================================================================ the configuration file

  const CurrentConfig: string := "markitdown_config.json"

  /** `Path.home() / ".markitdown" / "config.json"` */
  function HomeConfig(home: string): string
  {
    home + "/.markitdown/config.json"
  }

  /**
   * `_resolve_config_path`: a non-empty argument, else a non-empty
   * `MARKITDOWN_CONFIG`, else the first of the current directory's and the
   * home directory's files that exists, else the current directory's.
   */
  function ResolveConfigPath(configPath: Option<string>, env: Dict<string, string>, home: string,
                             isFile: string -> bool): (r: string)
    ensures StreamInfos.Truthy(configPath) ==> r == configPath.value
    ensures !StreamInfos.Truthy(configPath) && StreamInfos.Truthy(Get(env, "MARKITDOWN_CONFIG")) ==>
      r == Get(env, "MARKITDOWN_CONFIG").value
    ensures !StreamInfos.Truthy(configPath) && !StreamInfos.Truthy(Get(env, "MARKITDOWN_CONFIG")) ==>
      && (r == CurrentConfig || r == HomeConfig(home))
      && (r == HomeConfig(home) ==> isFile(r) && !isFile(CurrentConfig))
      && (isFile(CurrentConfig) ==> r == CurrentConfig)
  {
    if StreamInfos.Truthy(configPath) then configPath.value
    else if StreamInfos.Truthy(Get(env, "MARKITDOWN_CONFIG")) then Get(env, "MARKITDOWN_CONFIG").value
    else if isFile(CurrentConfig) then CurrentConfig
    else if isFile(HomeConfig(home)) then HomeConfig(home)
    else CurrentConfig
  }

  /**
   * What `_load_config` starts the environment from: the file's
   * configuration when the file exists, reads, parses and builds, else the
   * defaults. `read` gives the parsed JSON object, `None` when opening,
   * reading or parsing raises.
   */
  function LoadBase(path: string, isFile: string -> bool, read: string -> Option<Dict<string, Section>>): (r: Config)
    ensures Shaped(r)
    ensures isFile(path) && read(path).Some? && DictToConfig(read(path).value).Returned? ==>
      r == DictToConfig(read(path).value).value
    ensures !(isFile(path) && read(path).Some? && DictToConfig(read(path).value).Returned?) ==> r == DefaultConfig
  {
    if isFile(path) && read(path).Some? && DictToConfig(read(path).value).Returned? then
      DictToConfigSpec(read(path).value, Converters, "");
      DictToConfig(read(path).value).value
    else
      DefaultShaped();
      DefaultConfig
  }

  /** `_load_config`: the starting configuration with the environment overrides. */
  function LoadConfig(path: string, isFile: string -> bool, read: string -> Option<Dict<string, Section>>,
                      env: Dict<string, string>, parseFloat: string -> Option<real>): (r: Config)
    ensures Shaped(r)
  {
    var base := LoadBase(path, isFile, read);
    ShapedCovers(base);
    var r := EnvOverrides(base, env, EnvMappings, parseFloat);
    ShapedTransport(r, base);
    r
  }

  /** A missing, unreadable or unusable file leaves the defaults, and the environment still applies. */
  lemma LoadFailureKeepsDefaults(path: string, isFile: string -> bool, read: string -> Option<Dict<string, Section>>,
                                 env: Dict<string, string>, parseFloat: string -> Option<real>)
    requires !isFile(path) || read(path).None? || DictToConfig(read(path).value).Raised?
    ensures Covers(DefaultConfig, EnvMappings)
    ensures LoadConfig(path, isFile, read, env, parseFloat) == EnvOverrides(DefaultConfig, env, EnvMappings, parseFloat)
  {
    DefaultShaped();
    ShapedCovers(DefaultConfig);
  }

  // ================================================================ update_config

  /** A section's data in `update_config`: a mapping of fields, or something without `items()`. */
  datatype SectionUpdate = Fields(fields: Dict<string, Value>) | NotAMapping

  /** The inner loop: each named field that exists is set, the others ignored. */
  function UpdateFields(c: Config, s: SectionName, fields: Dict<string, Value>): (r: Config)
    ensures SameShape(r, c)
    decreases |fields|
  {
    if fields == [] then c
    else if HasField(c, s, fields[0].0) then
      SetFieldShape(c, s, fields[0].0, fields[0].1);
      UpdateFields(SetField(c, s, fields[0].0, fields[0].1), s, fields[1..])
    else UpdateFields(c, s, fields[1..])
  }

  /**
   * `update_config(updates)`: sections that do not exist are ignored; a
   * section whose data has no `items()` raises `AttributeError`, keeping
   * the updates made before it.
   */
  function UpdateSpec(c: Config, updates: Dict<string, SectionUpdate>): (r: (Config, Option<Exception>))
    ensures SameShape(r.0, c)
    decreases |updates|
  {
    if updates == [] then (c, None)
    else
      var (name, data) := updates[0];
      if SectionNamed(name).None? then UpdateSpec(c, updates[1..])
      else if data.NotAMapping? then (c, Some(AttributeError("object has no attribute 'items'")))
      else UpdateSpec(UpdateFields(c, SectionNamed(name).value, data.fields), updates[1..])
  }

  /** An entry that names a section but gives it no mapping. */
  predicate Unmappable(u: (string, SectionUpdate))
  {
    SectionNamed(u.0).Some? && u.1.NotAMapping?
  }

  /** An update raises exactly when one of its entries is unmappable. */
  lemma {:induction false} UpdateRaisesIff(c: Config, updates: Dict<string, SectionUpdate>)
    ensures UpdateSpec(c, updates).1.Some? <==> exists i :: 0 <= i < |updates| && Unmappable(updates[i])
    decreases |updates|
  {
    if updates != [] {
      var (name, data) := updates[0];
      var rest := updates[1..];
      assert (exists i :: 0 <= i < |updates| && Unmappable(updates[i]))
        <==> Unmappable(updates[0]) || exists i :: 0 <= i < |rest| && Unmappable(rest[i]) by {
        if exists i :: 0 <= i < |updates| && Unmappable(updates[i]) {
          var i :| 0 <= i < |updates| && Unmappable(updates[i]);
          if i > 0 { assert rest[i - 1] == updates[i]; }
        }
        if exists i :: 0 <= i < |rest| && Unmappable(rest[i]) {
          var i :| 0 <= i < |rest| && Unmappable(rest[i]);
          assert updates[i + 1] == rest[i];
        }
      }
      if SectionNamed(name).None? {
        UpdateRaisesIff(c, rest);
      } else if data.Fields? {
        UpdateRaisesIff(UpdateFields(c, SectionNamed(name).value, data.fields), rest);
      }
    }
  }

  /** Does this entry of an update name this field of this section? */
  predicate NamesField(u: (string, SectionUpdate), s: SectionName, field: string)
  {
    SectionNamed(u.0) == Some(s) && u.1.Fields? && exists j :: 0 <= j < |u.1.fields| && u.1.fields[j].0 == field
  }

  /** A field the fields do not name keeps its value. */
  lemma {:induction false} UpdateFieldsUntouched(c: Config, s: SectionName, fields: Dict<string, Value>,
                                                 t: SectionName, f: string)
    requires t != s || forall j :: 0 <= j < |fields| ==> fields[j].0 != f
    ensures Field(UpdateFields(c, s, fields), t, f) == Field(c, t, f)
    decreases |fields|
  {
    if fields != [] {
      if HasField(c, s, fields[0].0) {
        SetFieldSpec(c, s, fields[0].0, fields[0].1, t, f);
        UpdateFieldsUntouched(SetField(c, s, fields[0].0, fields[0].1), s, fields[1..], t, f);
      } else {
        UpdateFieldsUntouched(c, s, fields[1..], t, f);
      }
    }
  }

  /** A field no entry of the update names keeps its value. */
  lemma {:induction false} UpdateUntouchedFields(c: Config, updates: Dict<string, SectionUpdate>, s: SectionName, field: string)
    requires forall i :: 0 <= i < |updates| ==> !NamesField(updates[i], s, field)
    ensures Field(UpdateSpec(c, updates).0, s, field) == Field(c, s, field)
    decreases |updates|
  {
    if updates != [] {
      var (name, data) := updates[0];
      var rest := updates[1..];
      forall i | 0 <= i < |rest| ensures !NamesField(rest[i], s, field) {
        assert rest[i] == updates[i + 1];
      }
      if SectionNamed(name).Some? && data.Fields? {
        assert !NamesField(updates[0], s, field);
        UpdateFieldsUntouched(c, SectionNamed(name).value, data.fields, s, field);
        UpdateUntouchedFields(UpdateFields(c, SectionNamed(name).value, data.fields), rest, s, field);
      } else if SectionNamed(name).None? {
        UpdateUntouchedFields(c, rest, s, field);
      }
    }
  }

  /** Updating one existing field sets it, and nothing is raised. */
  lemma UpdateOneField(c: Config, s: SectionName, field: string, v: Value)
    requires HasField(c, s, field)
    ensures UpdateSpec(c, [(Name(s), Fields([(field, v)]))]).1.None?
    ensures Field(UpdateSpec(c, [(Name(s), Fields([(field, v)]))]).0, s, field) == Some(v)
  {
    NamedRoundTrip(s);
    SetFieldSpec(c, s, field, v, s, field);
    var c1 := SetField(c, s, field, v);
    assert [(field, v)][1..] == [];
    assert UpdateFields(c, s, [(field, v)]) == c1;
    assert [(Name(s), Fields([(field, v)]))][1..] == [];
  }

  /** The inner loop sets an existing field to the value of its last mention. */
  lemma {:induction false} UpdateFieldsSets(c: Config, s: SectionName, fields: Dict<string, Value>, j: nat)
    requires LastMention(fields, j) && HasField(c, s, fields[j].0)
    ensures Field(UpdateFields(c, s, fields), s, fields[j].0) == Some(fields[j].1)
    decreases |fields|
  {
    var (f, v) := fields[j];
    var rest := fields[1..];
    if j == 0 {
      var c1 := SetField(c, s, f, v);
      SetFieldSpec(c, s, f, v, s, f);
      assert UpdateFields(c, s, fields) == UpdateFields(c1, s, rest);
      UpdateFieldsUntouched(c1, s, rest, s, f);
    } else {
      assert rest[j - 1] == fields[j];
      forall k | j - 1 < k < |rest| ensures rest[k].0 != f {
        assert rest[k] == fields[k + 1];
      }
      if HasField(c, s, fields[0].0) {
        var c1 := SetField(c, s, fields[0].0, fields[0].1);
        SetFieldShape(c, s, fields[0].0, fields[0].1);
        SameShapeFields(c1, c, s, f);
        UpdateFieldsSets(c1, s, rest, j - 1);
      } else {
        UpdateFieldsSets(c, s, rest, j - 1);
      }
    }
  }

  /**
   * An update sets each existing field it names to the value of the last
   * entry and the last field that name it, provided no entry before that
   * one raises: field `j` of entry `i` gives field `f` of section `s` the
   * value `v`.
   */
  lemma {:induction false} UpdateSetsFields(c: Config, updates: Dict<string, SectionUpdate>, s: SectionName,
                                            i: nat, j: nat, f: string, v: Value)
    requires NoRaiseBefore(updates, i)
    requires i < |updates| && SectionNamed(updates[i].0) == Some(s) && updates[i].1.Fields?
    requires LastMention(updates[i].1.fields, j) && updates[i].1.fields[j] == (f, v)
    requires HasField(c, s, f) && NoLaterEntry(updates, i, s, f)
    ensures Field(UpdateSpec(c, updates).0, s, f) == Some(v)
    decreases |updates|
  {
    if i == 0 {
      LaterEntries(updates, i, s, f);
      UpdateSetsHead(c, updates, s, j);
    } else {
      UpdateSetsShift(c, updates, s, i, j);
      UpdateSetsFields(UpdateStep(c, updates[0]), updates[1..], s, i - 1, j, f, v);
    }
  }

  /** The conditions of `UpdateSetsFields` for entry `i` hold for entry `i - 1` of the tail, after the first step. */
  lemma UpdateSetsShift(c: Config, updates: Dict<string, SectionUpdate>, s: SectionName, i: nat, j: nat)
    requires NoRaiseBefore(updates, i)
    requires 0 < i < |updates| && SectionNamed(updates[i].0) == Some(s) && updates[i].1.Fields?
    requires LastMention(updates[i].1.fields, j) && HasField(c, s, updates[i].1.fields[j].0)
    requires NoLaterEntry(updates, i, s, updates[i].1.fields[j].0)
    ensures var c1 := UpdateStep(c, updates[0]);
      && updates[1..][i - 1] == updates[i]
      && UpdateSpec(c, updates) == UpdateSpec(c1, updates[1..])
      && HasField(c1, s, updates[i].1.fields[j].0)
      && NoLaterEntry(updates[1..], i - 1, s, updates[i].1.fields[j].0)
      && NoRaiseBefore(updates[1..], i - 1)
  {
    var f := updates[i].1.fields[j].0;
    LaterEntries(updates, i, s, f);
    assert !Unmappable(updates[0]);
    UpdateSpecStep(c, updates);
    forall k | 0 <= k < i - 1 ensures !Unmappable(updates[1..][k]) {
      assert updates[1..][k] == updates[k + 1];
    }
    SameShapeFields(UpdateStep(c, updates[0]), c, s, f);
  }

  /** What one entry of an update that does not raise does to the configuration. */
  function UpdateStep(c: Config, u: (string, SectionUpdate)): (r: Config)
    ensures SameShape(r, c)
  {
    if SectionNamed(u.0).None? || u.1.NotAMapping? then c
    else UpdateFields(c, SectionNamed(u.0).value, u.1.fields)
  }

  /** An update whose first entry does not raise is that entry's step, then the rest. */
  lemma UpdateSpecStep(c: Config, updates: Dict<string, SectionUpdate>)
    requires updates != [] && !Unmappable(updates[0])
    ensures UpdateSpec(c, updates) == UpdateSpec(UpdateStep(c, updates[0]), updates[1..])
  {
  }

  /** Field `j` is the last of the fields to name its field. */
  predicate LastMention(fields: Dict<string, Value>, j: nat)
  {
    j < |fields| && forall k :: j < k < |fields| ==> fields[k].0 != fields[j].0
  }

  /** No entry of the update before entry `i` raises. */
  predicate NoRaiseBefore(updates: Dict<string, SectionUpdate>, i: nat)
  {
    forall k :: 0 <= k < i && k < |updates| ==> !Unmappable(updates[k])
  }

  /** No entry of the update after entry `i` names field `f` of section `s`. */
  predicate NoLaterEntry(updates: Dict<string, SectionUpdate>, i: nat, s: SectionName, f: string)
  {
    forall k :: i < k < |updates| ==> !NamesField(updates[k], s, f)
  }

  /** The entries after entry `i` of an update are those after entry `i - 1` of its tail. */
  lemma LaterEntries(updates: Dict<string, SectionUpdate>, i: nat, s: SectionName, f: string)
    requires i < |updates| && NoLaterEntry(updates, i, s, f)
    ensures i > 0 ==> NoLaterEntry(updates[1..], i - 1, s, f)
    ensures i == 0 ==> forall k :: 0 <= k < |updates[1..]| ==> !NamesField(updates[1..][k], s, f)
  {
    var rest := updates[1..];
    forall k | i - 1 < k < |rest| ensures !NamesField(rest[k], s, f) {
      assert rest[k] == updates[k + 1];
    }
  }

  /** `UpdateSetsFields` for the first entry: its loop sets the field and no later entry touches it. */
  lemma UpdateSetsHead(c: Config, updates: Dict<string, SectionUpdate>, s: SectionName, j: nat)
    requires 0 < |updates| && SectionNamed(updates[0].0) == Some(s) && updates[0].1.Fields?
    requires LastMention(updates[0].1.fields, j) && HasField(c, s, updates[0].1.fields[j].0)
    requires forall k :: 0 <= k < |updates[1..]| ==> !NamesField(updates[1..][k], s, updates[0].1.fields[j].0)
    ensures Field(UpdateSpec(c, updates).0, s, updates[0].1.fields[j].0) == Some(updates[0].1.fields[j].1)
  {
    var fields := updates[0].1.fields;
    var c1 := UpdateFields(c, s, fields);
    UpdateFieldsSets(c, s, fields, j);
    assert UpdateSpec(c, updates) == UpdateSpec(c1, updates[1..]);
    UpdateUntouchedFields(c1, updates[1..], s, fields[j].0);
  }

  /** An update never adds a field: the sections keep their dataclasses' fields. */
  lemma UpdateAddsNoFields(c: Config, updates: Dict<string, SectionUpdate>, s: SectionName, field: string)
    requires Shaped(c)
    ensures Shaped(UpdateSpec(c, updates).0)
    ensures HasField(UpdateSpec(c, updates).0, s, field) <==> HasKey(Defaults(s), field)
  {
    ShapedTransport(UpdateSpec(c, updates).0, c);
    ShapedFields(UpdateSpec(c, updates).0, s, field);
  }

  // ================================================================ the manager

  class ConfigManager {
    /** `config_path` */
    var configPath: string
    /** `config` */
    var config: Config

    /** `ConfigManager(config_path)`: resolve the path, then load. */
    constructor (path: Option<string>, env: Dict<string, string>, home: string, isFile: string -> bool,
                 read: string -> Option<Dict<string, Section>>, parseFloat: string -> Option<real>)
      ensures configPath == ResolveConfigPath(path, env, home, isFile)
      ensures config == LoadConfig(configPath, isFile, read, env, parseFloat)
      ensures Shaped(config)
    {
      var resolved := ResolveConfigPath(path, env, home, isFile);
      configPath := resolved;
      config := LoadConfig(resolved, isFile, read, env, parseFloat);
    }

    /**
     * `update_config(updates)`: the nested loops over sections and fields;
     * the error, if one is raised, is returned.
     */
    method UpdateConfig(updates: Dict<string, SectionUpdate>) returns (error: Option<Exception>)
      modifies this`config
      ensures (config, error) == UpdateSpec(old(config), updates)
    {
      ghost var total := UpdateSpec(config, updates);
      for i := 0 to |updates|
        invariant UpdateSpec(config, updates[i..]) == total
      {
        var (sectionName, sectionData) := updates[i];
        assert updates[i..][0] == updates[i] && updates[i..][1..] == updates[i + 1..];
        var section := SectionNamed(sectionName);
        if section.Some? {
          if sectionData.NotAMapping? {
            return Some(AttributeError("object has no attribute 'items'"));
          }
          var fields := sectionData.fields;
          ghost var after := UpdateFields(config, section.value, fields);
          for j := 0 to |fields|
            invariant UpdateFields(config, section.value, fields[j..]) == after
          {
            var (fieldName, value) := fields[j];
            assert fields[j..][0] == fields[j] && fields[j..][1..] == fields[j + 1..];
            if HasKey(SectionOf(config, section.value), fieldName) {
              config := SetField(config, section.value, fieldName, value);
            }
          }
          assert fields[|fields|..] == [];
        }
      }
      assert updates[|updates|..] == [];
      error := None;
    }
  }
}
