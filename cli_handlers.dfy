/** The command-line handlers' decisions: the hex payload decoder shared by
    `save-config` and `save-module-rules`, the insertion of a module's rules into
    the configuration, the fallback of `load_config` to the default
    configuration, and the names of diagnostic levels. Reading, parsing and
    writing the configuration file are outcomes passed in. */
module CliHandlers {
  import opened Wrappers
  import opened Strings
  import Defs

  type byte = b: int | 0 <= b < 256

  /** Length in bytes of a character's UTF-8 encoding: the decoder slices the
      payload at byte offsets. */
  function Utf8Len(c: char): nat {
    if c as int < 0x80 then 1
    else if c as int < 0x800 then 2
    else if c as int < 0x1_0000 then 3
    else 4
  }

  /** Every character of the payload is ASCII, one byte each. */
  predicate Ascii(payload: string) {
    forall i :: 0 <= i < |payload| ==> Utf8Len(payload[i]) == 1
  }

  /** `u8::from_str_radix(pair, 16)`. */
  function ParseHexByte(pair: string): Option<byte> {
    match ParseUnsigned(pair, 16, 255)
    case Some(v) => Some(v)
    case None => None
  }

  /** The `k`-th pair of characters, at offset 2k. */
  function PairAt(payload: string, k: nat): string
    requires 2 * k + 2 <= |payload|
  {
    payload[2 * k..2 * k + 2]
  }

  /** What the decoder comes to: the bytes; a slice that is not a hex number
      (the "Failed to decode hex payload" error); or a panic of the slice
      `payload[i..i + 2]`, which runs past the end or cuts a character. */
  datatype HexDecode = Decoded(bytes: seq<byte>) | BadPair | SlicePanic

  /** The payload sliced two bytes at a time from even byte offsets, stopping
      at the first slice that does not parse (later slices are never taken).
      At a character boundary the next two bytes are two ASCII characters, one
      two-byte character (which is not a hex digit), or they end inside a
      character or past the end of the payload. */
  function DecodeHex(payload: string): (r: HexDecode)
    ensures r.Decoded? ==> Ascii(payload) && |payload| % 2 == 0 && |r.bytes| == |payload| / 2
    decreases |payload|
  {
    if payload == [] then Decoded([])
    else if Utf8Len(payload[0]) == 1 then
      if |payload| == 1 || Utf8Len(payload[1]) != 1 then SlicePanic
      else match ParseHexByte(payload[..2])
        case None => BadPair
        case Some(b) =>
          match DecodeHex(payload[2..])
          case Decoded(bs) =>
            assert forall i :: 2 <= i < |payload| ==> payload[i] == payload[2..][i - 2];
            Decoded([b] + bs)
          case other => other
    else if Utf8Len(payload[0]) == 2 then BadPair
    else SlicePanic
  }

  /** A two-byte character taken as a whole slice is not a hex number. */
  lemma TwoByteCharIsBadPair(c: char)
    requires Utf8Len(c) == 2
    ensures ParseHexByte([c]).None?
  {
    assert [c][1..] == [];
    assert [c][..0] == [];
  }

  lemma PairAtRest(payload: string, k: nat)
    requires 2 * k + 4 <= |payload|
    ensures PairAt(payload[2..], k) == PairAt(payload, k + 1)
  {
  }

  /** On an ASCII payload, decoding succeeds exactly when the length is even and
      every pair parses in base 16, and then byte k is the value of pair k; when
      the length is odd and every pair parses, the last slice runs past the end
      and panics; otherwise the first pair that does not parse is an error. */
  lemma {:induction false} DecodeHexSpec(payload: string)
    requires Ascii(payload)
    ensures DecodeHex(payload).Decoded? <==>
      |payload| % 2 == 0 && forall k: nat :: k < |payload| / 2 ==> ParseHexByte(PairAt(payload, k)).Some?
    ensures DecodeHex(payload).SlicePanic? <==>
      |payload| % 2 == 1 && forall k: nat :: k < |payload| / 2 ==> ParseHexByte(PairAt(payload, k)).Some?
    ensures DecodeHex(payload).Decoded? ==>
      forall k: nat :: k < |payload| / 2 ==> DecodeHex(payload).bytes[k] == ParseHexByte(PairAt(payload, k)).value
    decreases |payload|
  {
    if |payload| >= 2 {
      var rest := payload[2..];
      assert Ascii(rest) by {
        forall i | 0 <= i < |rest| ensures Utf8Len(rest[i]) == 1 {
          assert rest[i] == payload[i + 2];
        }
      }
      DecodeHexSpec(rest);
      forall k: nat | k < |rest| / 2 ensures PairAt(rest, k) == PairAt(payload, k + 1) {
        PairAtRest(payload, k);
      }
      assert PairAt(payload, 0) == payload[..2];
      if ParseHexByte(payload[..2]).Some? && !(forall k: nat :: k < |payload| / 2 ==> ParseHexByte(PairAt(payload, k)).Some?) {
        var k: nat :| k < |payload| / 2 && ParseHexByte(PairAt(payload, k)).None?;
        assert k > 0;
        assert ParseHexByte(PairAt(rest, k - 1)).None?;
      }
      if DecodeHex(payload).Decoded? {
        var bs := DecodeHex(payload).bytes;
        forall k: nat | k < |payload| / 2
          ensures bs[k] == ParseHexByte(PairAt(payload, k)).value
        {
          if k > 0 {
            assert bs[k] == DecodeHex(rest).bytes[k - 1];
          }
        }
      }
    }
  }

  /** The decoder stops at the first slice that fails: "zzz" is an error
      although its length is odd, and so is "éa", whose first slice is the
      two-byte "é"; "0" and "0é" panic, the first past the end and the second
      inside "é". */
  lemma DecodeHexStopsAtFirstBadPair()
    ensures DecodeHex("zzz") == BadPair
    ensures DecodeHex("\U{00E9}a") == BadPair
    ensures DecodeHex("0") == SlicePanic
    ensures DecodeHex("0\U{00E9}") == SlicePanic
  {
    assert "zzz"[..2] == "zz";
    assert "zz"[1..] == "zz"[1..2];
    assert "zz"[..1] == "z";
    assert "z"[..0] == [];
    assert DigitsValue("z", 16).None?;
    assert DigitsValue("zz", 16).None?;
  }

  function HexDigit(d: nat, upper: bool): char
    requires d < 16
  {
    if d < 10 then DigitChar(d)
    else if upper then ('A' as int + d - 10) as char
    else ('a' as int + d - 10) as char
  }

  /** Two hex digits per byte, in either letter case. */
  function EncodeHex(bytes: seq<byte>, upper: bool): (r: string)
    ensures |r| == 2 * |bytes|
  {
    if bytes == [] then []
    else [HexDigit(bytes[0] / 16, upper), HexDigit(bytes[0] % 16, upper)] + EncodeHex(bytes[1..], upper)
  }

  lemma ParseHexPair(b: byte, upper: bool)
    ensures ParseHexByte([HexDigit(b / 16, upper), HexDigit(b % 16, upper)]) == Some(b)
  {
    var pair := [HexDigit(b / 16, upper), HexDigit(b % 16, upper)];
    assert DigitValue(pair[0], 16) == Some(b / 16);
    assert DigitValue(pair[1], 16) == Some(b % 16);
    assert pair[..1][..0] == [];
    assert DigitsValue(pair[..1], 16) == Some(b / 16);
    assert pair[..|pair| - 1] == pair[..1];
    assert DigitsValue(pair, 16) == Some(b / 16 * 16 + b % 16);
  }

  /** Decoding the hex encoding of a byte string, in either letter case, gives
      the bytes back. */
  lemma {:induction false} DecodeEncodeHex(bytes: seq<byte>, upper: bool)
    ensures DecodeHex(EncodeHex(bytes, upper)) == Decoded(bytes)
  {
    if bytes != [] {
      var s := EncodeHex(bytes, upper);
      ParseHexPair(bytes[0], upper);
      assert s[..2] == [HexDigit(bytes[0] / 16, upper), HexDigit(bytes[0] % 16, upper)];
      assert s[2..] == EncodeHex(bytes[1..], upper);
      DecodeEncodeHex(bytes[1..], upper);
      assert bytes == [bytes[0]] + bytes[1..];
    }
  }

  /** `from_str_radix` accepts a leading '+', so "+f" is a valid byte pair. */
  lemma PlusSignPair()
    ensures DecodeHex("+f") == Decoded([15])
  {
    assert "+f"[..2] == "+f" && "+f"[2..] == [];
    assert "+f"[1..] == "f";
    assert "f"[..0] == [];
    assert DigitsValue("f", 16) == Some(15);
    assert ParseUnsigned("+f", 16, 255) == Some(15);
    assert ParseHexByte("+f") == Some(15);
    var one: seq<byte> := [15];
    assert one + [] == one;
    assert DecodeHex("+f") == Decoded(one + []);
  }

  datatype Config<R, S> = Config(rules: map<string, R>, settings: S)

  /** `DecodePanicked` is the slice panic, which ends the process. */
  datatype SaveError = InvalidModuleId | BadHexPayload | DecodePanicked | BadRulesJson

  /** `handle_save_module_rules` up to the file write: the id is checked before
      anything is decoded; the decoded rules go under `moduleId` in the
      configuration as loaded, or in the default one when loading failed. */
  function SaveModuleRules<R, S>(idValid: bool, moduleId: string, payload: string,
                                 parseRules: seq<byte> -> Option<R>,
                                 loaded: Option<Config<R, S>>, default: Config<R, S>)
    : (r: Result<Config<R, S>, SaveError>)
    ensures !idValid ==> r == Err(InvalidModuleId)
    ensures r.Ok? ==> DecodeHex(payload).Decoded? && parseRules(DecodeHex(payload).bytes).Some?
    ensures r.Ok? ==>
      var base := loaded.GetOr(default);
      moduleId in r.value.rules && r.value.rules[moduleId] == parseRules(DecodeHex(payload).bytes).value
      && r.value.settings == base.settings
      && (forall m :: m != moduleId ==> (m in r.value.rules <==> m in base.rules))
      && (forall m :: m != moduleId && m in base.rules ==> r.value.rules[m] == base.rules[m])
    ensures idValid && r.Err? ==>
      r.error == (match DecodeHex(payload)
                  case BadPair => BadHexPayload
                  case SlicePanic => DecodePanicked
                  case Decoded(_) => BadRulesJson)
  {
    if !idValid then Err(InvalidModuleId)
    else match DecodeHex(payload)
      case BadPair => Err(BadHexPayload)
      case SlicePanic => Err(DecodePanicked)
      case Decoded(bytes) =>
        match parseRules(bytes)
        case None => Err(BadRulesJson)
        case Some(rules) =>
          var base := loaded.GetOr(default);
          Ok(base.(rules := base.rules[moduleId := rules]))
  }

  /** Saving the same rules twice leaves the same configuration as saving once. */
  lemma SaveModuleRulesTwice<R, S>(moduleId: string, payload: string,
                                   parseRules: seq<byte> -> Option<R>, base: Config<R, S>)
    requires SaveModuleRules(true, moduleId, payload, parseRules, Some(base), base).Ok?
    ensures var once := SaveModuleRules(true, moduleId, payload, parseRules, Some(base), base).value;
      SaveModuleRules(true, moduleId, payload, parseRules, Some(once), base) == Ok(once)
  {
    var once := SaveModuleRules(true, moduleId, payload, parseRules, Some(base), base).value;
    var rules := parseRules(DecodeHex(payload).bytes).value;
    assert once.rules[moduleId := rules] == once.rules;
  }

  /** The loader's own error; `notFound` says whether its root cause is an I/O
      error of kind NotFound. */
  datatype LoadError = LoadError(notFound: bool, message: string)

  /** An `anyhow` error after `context`: the message on top, the loader's error
      underneath as its root cause. */
  datatype LoadFailure = WithContext(context: string, cause: LoadError)

  datatype ConfigSource = ExplicitPath | DefaultFile | BuiltInDefault

  const CUSTOM_PATH_CONTEXT := "Failed to load config from custom path: "
  const DEFAULT_FILE_CONTEXT := "Failed to load default config from " + Defs.CONFIG_FILE

  /** `load_config`: with an explicit path, that file's configuration, or its
      error under a context naming the path; otherwise the default file's
      configuration, the built-in default when the file is missing, or the
      error under a context naming the default file. `Ok` carries the
      configuration and where it came from. */
  function LoadConfig<C>(configPath: Option<string>, fromPath: Result<C, LoadError>,
                         fromDefault: Result<C, LoadError>, default: C)
    : (r: Result<(C, ConfigSource), LoadFailure>)
    ensures configPath.Some? ==> (r.Ok? <==> fromPath.Ok?)
    ensures configPath.Some? && r.Ok? ==> r.value == (fromPath.value, ExplicitPath)
    ensures configPath.Some? && r.Err? ==>
      r.error == WithContext(CUSTOM_PATH_CONTEXT + configPath.value, fromPath.error)
    ensures configPath.None? && fromDefault.Ok? ==> r == Ok((fromDefault.value, DefaultFile))
    ensures configPath.None? && fromDefault.Err? ==>
      if fromDefault.error.notFound then r == Ok((default, BuiltInDefault))
      else r == Err(WithContext(DEFAULT_FILE_CONTEXT, fromDefault.error))
  {
    match configPath
    case Some(path) =>
      (match fromPath
       case Ok(c) => Ok((c, ExplicitPath))
       case Err(e) => Err(WithContext(CUSTOM_PATH_CONTEXT + path, e)))
    case None =>
      match fromDefault
      case Ok(c) => Ok((c, DefaultFile))
      case Err(e) => if e.notFound then Ok((default, BuiltInDefault)) else Err(WithContext(DEFAULT_FILE_CONTEXT, e))
  }

  /** The built-in default is used only when no explicit path was given and the
      default file is missing. */
  lemma LoadConfigDefaultOnlyWhenMissing<C>(configPath: Option<string>, fromPath: Result<C, LoadError>,
                                            fromDefault: Result<C, LoadError>, default: C)
    ensures var r := LoadConfig(configPath, fromPath, fromDefault, default);
      (r.Ok? && r.value.1 == BuiltInDefault) <==>
      (configPath.None? && fromDefault.Err? && fromDefault.error.notFound)
  {
  }

  /** A failure keeps the loader's error as its root cause, and its context
      tells which file failed: it names the custom path exactly when one was
      given. A failure of the default file is never a missing file. */
  lemma LoadFailureNamesItsFile<C>(configPath: Option<string>, fromPath: Result<C, LoadError>,
                                   fromDefault: Result<C, LoadError>, default: C)
    requires LoadConfig(configPath, fromPath, fromDefault, default).Err?
    ensures var f := LoadConfig(configPath, fromPath, fromDefault, default).error;
      f.cause == (if configPath.Some? then fromPath.error else fromDefault.error)
      && (StartsWith(f.context, CUSTOM_PATH_CONTEXT) <==> configPath.Some?)
      && (configPath.Some? ==> f.context[|CUSTOM_PATH_CONTEXT|..] == configPath.value)
      && (configPath.None? ==> !f.cause.notFound)
  {
    var f := LoadConfig(configPath, fromPath, fromDefault, default).error;
    if configPath.None? {
      assert DEFAULT_FILE_CONTEXT[15] == 'd' != CUSTOM_PATH_CONTEXT[15];
    }
  }

  datatype DiagnosticLevel = Warning | Critical

  function LevelName(level: DiagnosticLevel): (r: string)
    ensures r == "Warning" || r == "Critical"
  {
    match level
    case Warning => "Warning"
    case Critical => "Critical"
  }

  /** The level can be read back from its name. */
  function ParseLevelName(name: string): Option<DiagnosticLevel> {
    if name == "Warning" then Some(Warning)
    else if name == "Critical" then Some(Critical)
    else None
  }

  lemma LevelNameRoundTrip(level: DiagnosticLevel)
    ensures ParseLevelName(LevelName(level)) == Some(level)
  {
  }
}
