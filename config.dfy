/** `Config`: the loaded YAML settings, looked up by dotted keys, with API
    keys taken from the environment written over the file's values. A YAML
    document is a `Value`; the environment is a map from names to values. */
module Config {
  import opened Wrappers
  import opened Text

  /** A YAML value: a mapping, a string or other scalar kept as its text, a
      boolean, or null. A sequence is an opaque leaf (`Text`), as `get` treats
      it: a list is not a `dict`. */
  datatype Value = Dict(entries: map<string, Value>) | Text(s: string) | Flag(b: bool) | Null

  /** The keys leading from the document to one setting. */
  type Path = seq<string>

  /** One entry of `env_mappings`: a variable and the settings it overrides. */
  datatype Mapping = Mapping(envVar: string, paths: seq<Path>)

  const EnvMappings: seq<Mapping> := [
    Mapping("QWEN_API_KEY", [["ai", "qwen_api_key"], ["whisper", "qwen_api_key"]]),
    Mapping("DEEPSEEK_API_KEY", [["ai", "deepseek_api_key"]]),
    Mapping("OPENAI_API_KEY", [["ai", "openai_api_key"], ["whisper", "openai_api_key"]]),
    Mapping("CLAUDE_API_KEY", [["ai", "claude_api_key"]]),
    Mapping("DOUBAO_API_KEY", [["ai", "doubao_api_key"]]),
    Mapping("HF_TOKEN", [["diarization", "hf_token"]])
  ]

  /** `_default_config`. */
  const DefaultConfig: Value := Dict(map[
    "app" := Dict(map["name" := Text("播客分析工具"), "version" := Text("1.0.0"), "debug" := Flag(true)]),
    "database" := Dict(map["path" := Text("data/database.db")]),
    "storage" := Dict(map[
      "audio_dir" := Text("data/audio"),
      "transcript_dir" := Text("data/transcripts"),
      "note_dir" := Text("data/notes"),
      "keep_audio" := Flag(true)]),
    "whisper" := Dict(map["model_size" := Text("medium"), "device" := Text("cpu"), "compute_type" := Text("int8"), "language" := Text("zh")])
  ])

  // ---------------------------------------------------------------- lookup

  /** The value `keys` lead to: descending while the current value is a
      mapping holding the next key. */
  function Lookup(v: Value, keys: Path): Option<Value>
    decreases |keys|
  {
    if |keys| == 0 then Some(v)
    else if v.Dict? && keys[0] in v.entries then Lookup(v.entries[keys[0]], keys[1..])
    else None
  }

  /** The value found, or `default`. */
  function Found(v: Value, keys: Path, default: Value): Value
  {
    if Lookup(v, keys).Some? then Lookup(v, keys).value else default
  }

  /** `key.split('.')`. */
  function KeysOf(key: string): Path
  {
    SplitAny(key, {'.'})
  }

  /** Position `k` of `keys` is where the descent stops: the value reached
      there is not a mapping holding the next key. */
  predicate StopsAt(v: Value, keys: Path, k: nat)
    requires k < |keys|
  {
    Lookup(v, keys[..k]).Some? &&
    !(Lookup(v, keys[..k]).value.Dict? && keys[k] in Lookup(v, keys[..k]).value.entries)
  }

  /** The default comes back exactly when some key on the way is missing or
      is reached through something that is not a mapping; a value found is
      returned as it is, a null included. */
  lemma {:induction false} FoundSpec(v: Value, keys: Path, default: Value)
    ensures Lookup(v, keys).None? <==> exists k :: 0 <= k < |keys| && StopsAt(v, keys, k)
    ensures Lookup(v, keys) == Some(Null) ==> Found(v, keys, default) == Null
    decreases |keys|
  {
    if |keys| > 0 {
      assert keys[..0] == [];
      if v.Dict? && keys[0] in v.entries {
        var child := v.entries[keys[0]];
        var rest := keys[1..];
        FoundSpec(child, rest, default);
        forall k | 1 <= k <= |keys| ensures Lookup(v, keys[..k]) == Lookup(child, rest[..k - 1]) {
          assert keys[..k][0] == keys[0];
          assert keys[..k][1..] == rest[..k - 1];
        }
        if Lookup(v, keys).None? {
          var k :| 0 <= k < |rest| && StopsAt(child, rest, k);
          assert Lookup(v, keys[..k + 1]) == Lookup(child, rest[..k]);
          assert StopsAt(v, keys, k + 1);
        }
        if exists k :: 0 <= k < |keys| && StopsAt(v, keys, k) {
          var k :| 0 <= k < |keys| && StopsAt(v, keys, k);
          assert k > 0;
          assert Lookup(child, rest[..k - 1]) == Lookup(v, keys[..k]);
          assert rest[k - 1] == keys[k];
          assert StopsAt(child, rest, k - 1);
        }
      } else {
        assert StopsAt(v, keys, 0);
      }
    }
  }

  /** A key made of dot-free segments is split back into them. */
  lemma DottedKey(keys: Path)
    requires |keys| > 0 && forall i :: 0 <= i < |keys| ==> NoneIn(keys[i], {'.'})
    ensures KeysOf(Join(keys, ".")) == keys
  {
    JoinSplit(keys, '.');
  }

  // ---------------------------------------------------------------- writing

  /** Setting `path` to the text `x`: the sections on the way are entered,
      created empty when missing; `None` is the `TypeError` raised when one of
      them (or the document) is not a mapping, or the `IndexError` of an empty
      path. */
  function SetPath(v: Value, path: Path, x: string): Option<Value>
    decreases |path|
  {
    if |path| == 0 || !v.Dict? then None
    else if |path| == 1 then Some(Dict(v.entries[path[0] := Text(x)]))
    else
      var child := if path[0] in v.entries then v.entries[path[0]] else Dict(map[]);
      match SetPath(child, path[1..], x)
      case None => None
      case Some(c) => Some(Dict(v.entries[path[0] := c]))
  }

  /** Writing `x` to every path in turn. */
  function WriteAll(v: Value, paths: seq<Path>, x: string): Option<Value>
    decreases |paths|
  {
    if |paths| == 0 then Some(v)
    else match SetPath(v, paths[0], x)
      case None => None
      case Some(w) => WriteAll(w, paths[1..], x)
  }

  /** `os.getenv(name)` is truthy: the variable is set and not empty. */
  predicate IsSet(env: map<string, string>, name: string)
  {
    name in env && env[name] != ""
  }

  /** One mapping's writes, when its variable is set. */
  function ApplyOne(v: Value, env: map<string, string>, m: Mapping): Option<Value>
  {
    if IsSet(env, m.envVar) then WriteAll(v, m.paths, env[m.envVar]) else Some(v)
  }

  /** The rest of the mappings, after a step that may have failed. */
  function Then(o: Option<Value>, env: map<string, string>, ms: seq<Mapping>): Option<Value>
    decreases |ms|, 1
  {
    match o
    case None => None
    case Some(w) => ApplyMappings(w, env, ms)
  }

  /** The mappings in order. */
  function ApplyMappings(v: Value, env: map<string, string>, ms: seq<Mapping>): Option<Value>
    decreases |ms|, 0
  {
    if |ms| == 0 then Some(v) else Then(ApplyOne(v, env, ms[0]), env, ms[1..])
  }

  /** `_load_secrets_from_env`, with the environment as a parameter: `None`
      when it raises. */
  method LoadSecretsFromEnv(config: Value, env: map<string, string>) returns (r: Option<Value>)
    ensures r == ApplyMappings(config, env, EnvMappings)
  {
    var current := config;
    for i := 0 to |EnvMappings|
      invariant ApplyMappings(config, env, EnvMappings) == ApplyMappings(current, env, EnvMappings[i..])
    {
      assert EnvMappings[i..][1..] == EnvMappings[i + 1..];
      var m := EnvMappings[i];
      if m.envVar in env && env[m.envVar] != "" {
        var envValue := env[m.envVar];
        for j := 0 to |m.paths|
          invariant ApplyMappings(config, env, EnvMappings) ==
            Then(WriteAll(current, m.paths[j..], envValue), env, EnvMappings[i + 1..])
        {
          assert m.paths[j..][1..] == m.paths[j + 1..];
          var written := SetPath(current, m.paths[j], envValue);
          if written.None? {
            return None;
          }
          current := written.value;
        }
      }
    }
    return Some(current);
  }

  /** When the configuration file could be read and parsed into `loaded`,
      that document with the environment's keys written over it; the default
      configuration when reading failed or writing raised. */
  function LoadedData(loaded: Option<Value>, env: map<string, string>): Value
  {
    if loaded.None? then DefaultConfig
    else
      var r := ApplyMappings(loaded.value, env, EnvMappings);
      if r.Some? then r.value else DefaultConfig
  }

  /** `_load_config`, with the file's parsed contents as a parameter. */
  method LoadConfig(loaded: Option<Value>, env: map<string, string>) returns (data: Value)
    ensures data == LoadedData(loaded, env)
  {
    if loaded.None? {
      return DefaultConfig;
    }
    var r := LoadSecretsFromEnv(loaded.value, env);
    if r.None? {
      return DefaultConfig;
    }
    return r.value;
  }

  class Config {
    var data: Value

    /** `__init__`: the file's parsed contents (`None` when it could not be
        read) with the environment's keys. */
    constructor (loaded: Option<Value>, env: map<string, string>)
      ensures data == LoadedData(loaded, env)
    {
      data := LoadedData(loaded, env);
    }

    /** `get`. */
    method Get(key: string, default: Value) returns (r: Value)
      ensures r == Found(data, KeysOf(key), default)
    {
      var keys := KeysOf(key);
      var value := data;
      for i := 0 to |keys|
        invariant Lookup(data, keys) == Lookup(value, keys[i..])
      {
        assert keys[i..][1..] == keys[i + 1..];
        if value.Dict? && keys[i] in value.entries {
          value := value.entries[keys[i]];
        } else {
          return default;
        }
      }
      return value;
    }

    /** `__getitem__`: `get` with a null default. */
    method Item(key: string) returns (r: Value)
      ensures r == Found(data, KeysOf(key), Null)
    {
      r := Get(key, Null);
    }
  }

  // ---------------------------------------------------------------- what the writes do

  /** The paths differ at some position both have. */
  predicate Apart(p: Path, q: Path)
    decreases |p|
  {
    |p| > 0 && |q| > 0 && (p[0] != q[0] || Apart(p[1..], q[1..]))
  }

  /** A write lands: afterwards the path leads to the text written. */
  lemma {:induction false} SetPathLands(v: Value, path: Path, x: string)
    requires SetPath(v, path, x).Some?
    ensures Lookup(SetPath(v, path, x).value, path) == Some(Text(x))
    decreases |path|
  {
    if |path| > 1 {
      var child := if path[0] in v.entries then v.entries[path[0]] else Dict(map[]);
      SetPathLands(child, path[1..], x);
    }
  }

  /** A write leaves every path apart from its own as it was. */
  lemma {:induction false} SetPathKeeps(v: Value, path: Path, x: string, p: Path)
    requires SetPath(v, path, x).Some? && Apart(p, path)
    ensures Lookup(SetPath(v, path, x).value, p) == Lookup(v, p)
    decreases |path|
  {
    if p[0] == path[0] {
      var child := if path[0] in v.entries then v.entries[path[0]] else Dict(map[]);
      SetPathKeeps(child, path[1..], x, p[1..]);
      if path[0] !in v.entries {
        assert Lookup(child, p[1..]) == None;
      }
    }
  }

  /** Writing creates the missing sections: the write succeeds exactly when
      everything on the way that exists is a mapping. */
  lemma {:induction false} SetPathSucceeds(v: Value, path: Path, x: string)
    requires |path| > 0
    ensures SetPath(v, path, x).Some? <==>
      forall k :: 0 <= k < |path| && Lookup(v, path[..k]).Some? ==> Lookup(v, path[..k]).value.Dict?
    decreases |path|
  {
    assert path[..0] == [];
    if |path| > 1 && v.Dict? {
      var child := if path[0] in v.entries then v.entries[path[0]] else Dict(map[]);
      SetPathSucceeds(child, path[1..], x);
      forall k | 1 <= k < |path| ensures Lookup(v, path[..k]) ==
        (if path[0] in v.entries then Lookup(child, path[1..][..k - 1]) else None)
      {
        assert path[..k][0] == path[0];
        assert path[..k][1..] == path[1..][..k - 1];
      }
      if path[0] !in v.entries {
        forall k | 0 <= k < |path[1..]| ensures Lookup(child, path[1..][..k]).Some? ==> Lookup(child, path[1..][..k]).value.Dict? {
          if k > 0 { assert Lookup(child, path[1..][..k]) == None; }
        }
      } else {
        forall k | 0 <= k < |path[1..]| ensures Lookup(child, path[1..][..k]) == Lookup(v, path[..k + 1]) {
        }
      }
    }
  }

  /** The section `s` of `v` is a mapping or absent, in a document that is a
      mapping: a two-key path through it can be written. */
  predicate Sectioned(v: Value, s: string)
  {
    v.Dict? && (s in v.entries ==> v.entries[s].Dict?)
  }

  /** Every path has two keys, as in `env_mappings`. */
  predicate TwoKeys(paths: seq<Path>)
  {
    forall j :: 0 <= j < |paths| ==> |paths[j]| == 2
  }

  lemma SetPair(v: Value, path: Path, x: string)
    requires |path| == 2
    ensures SetPath(v, path, x).Some? <==> Sectioned(v, path[0])
    ensures SetPath(v, path, x).Some? ==>
      forall t :: Sectioned(SetPath(v, path, x).value, t) <==> Sectioned(v, t)
  {
    if Sectioned(v, path[0]) {
      var child := if path[0] in v.entries then v.entries[path[0]] else Dict(map[]);
      assert SetPath(child, path[1..], x) == Some(Dict(child.entries[path[1] := Text(x)]));
      var w := SetPath(v, path, x).value;
      forall t ensures Sectioned(w, t) <==> Sectioned(v, t) {
        if t != path[0] {
          assert t in w.entries <==> t in v.entries;
        }
      }
    }
  }

  /** Writing two-key paths succeeds exactly when all their sections can be
      written, and leaves which sections can be written unchanged. */
  lemma {:induction false} WriteAllSucceeds(v: Value, paths: seq<Path>, x: string)
    requires TwoKeys(paths)
    ensures WriteAll(v, paths, x).Some? <==> forall j :: 0 <= j < |paths| ==> Sectioned(v, paths[j][0])
    ensures WriteAll(v, paths, x).Some? ==>
      forall t :: Sectioned(WriteAll(v, paths, x).value, t) <==> Sectioned(v, t)
    decreases |paths|
  {
    if |paths| > 0 {
      SetPair(v, paths[0], x);
      if Sectioned(v, paths[0][0]) {
        var w := SetPath(v, paths[0], x).value;
        WriteAllSucceeds(w, paths[1..], x);
        assert forall j :: 1 <= j < |paths| ==> paths[1..][j - 1] == paths[j];
      }
    }
  }

  /** Every mapping's paths have two keys. */
  predicate Shaped(ms: seq<Mapping>)
  {
    forall i :: 0 <= i < |ms| ==> TwoKeys(ms[i].paths)
  }

  /** The writes of all set variables succeed exactly when each of their
      sections can be written. */
  lemma {:induction false} ApplySucceeds(v: Value, env: map<string, string>, ms: seq<Mapping>)
    requires Shaped(ms)
    ensures ApplyMappings(v, env, ms).Some? <==>
      forall i, j :: 0 <= i < |ms| && 0 <= j < |ms[i].paths| && IsSet(env, ms[i].envVar) ==> Sectioned(v, ms[i].paths[j][0])
    decreases |ms|
  {
    if |ms| > 0 {
      var m := ms[0];
      assert forall i :: 1 <= i < |ms| ==> ms[1..][i - 1] == ms[i];
      if IsSet(env, m.envVar) {
        WriteAllSucceeds(v, m.paths, env[m.envVar]);
        var o := WriteAll(v, m.paths, env[m.envVar]);
        if o.Some? {
          ApplySucceeds(o.value, env, ms[1..]);
        }
      } else {
        ApplySucceeds(v, env, ms[1..]);
      }
    }
  }

  /** Writing paths leaves a path apart from all of them as it was. */
  lemma {:induction false} WriteAllKeeps(v: Value, paths: seq<Path>, x: string, p: Path)
    requires WriteAll(v, paths, x).Some?
    requires forall j :: 0 <= j < |paths| ==> Apart(p, paths[j])
    ensures Lookup(WriteAll(v, paths, x).value, p) == Lookup(v, p)
    decreases |paths|
  {
    if |paths| > 0 {
      var w := SetPath(v, paths[0], x).value;
      SetPathKeeps(v, paths[0], x, p);
      assert forall j :: 1 <= j < |paths| ==> paths[1..][j - 1] == paths[j];
      WriteAllKeeps(w, paths[1..], x, p);
    }
  }

  /** The mappings leave a path apart from all of theirs as it was. */
  lemma {:induction false} ApplyKeeps(v: Value, env: map<string, string>, ms: seq<Mapping>, p: Path)
    requires ApplyMappings(v, env, ms).Some?
    requires forall i, j :: 0 <= i < |ms| && 0 <= j < |ms[i].paths| ==> Apart(p, ms[i].paths[j])
    ensures Lookup(ApplyMappings(v, env, ms).value, p) == Lookup(v, p)
    decreases |ms|
  {
    if |ms| > 0 {
      assert forall i :: 1 <= i < |ms| ==> ms[1..][i - 1] == ms[i];
      var w := ApplyOne(v, env, ms[0]).value;
      if IsSet(env, ms[0].envVar) {
        WriteAllKeeps(v, ms[0].paths, env[ms[0].envVar], p);
      }
      ApplyKeeps(w, env, ms[1..], p);
    }
  }

  /** Writing paths puts `x` at the path `j` when no later path meets it. */
  lemma {:induction false} WriteAllLands(v: Value, paths: seq<Path>, x: string, j: nat)
    requires WriteAll(v, paths, x).Some? && j < |paths|
    requires forall j2 :: j < j2 < |paths| ==> Apart(paths[j], paths[j2])
    ensures Lookup(WriteAll(v, paths, x).value, paths[j]) == Some(Text(x))
    decreases |paths|
  {
    var w := SetPath(v, paths[0], x).value;
    assert forall j2 :: 1 <= j2 < |paths| ==> paths[1..][j2 - 1] == paths[j2];
    if j == 0 {
      SetPathLands(v, paths[0], x);
      WriteAllKeeps(w, paths[1..], x, paths[0]);
    } else {
      WriteAllLands(w, paths[1..], x, j - 1);
    }
  }

  /** The paths of mapping `i` after its path `j`, and of the later mappings,
      are apart from that one. */
  predicate LaterApart(ms: seq<Mapping>, i: nat, j: nat)
    requires i < |ms| && j < |ms[i].paths|
  {
    (forall j2 :: j < j2 < |ms[i].paths| ==> Apart(ms[i].paths[j], ms[i].paths[j2])) &&
    (forall i2, j2 :: i < i2 < |ms| && 0 <= j2 < |ms[i2].paths| ==> Apart(ms[i].paths[j], ms[i2].paths[j2]))
  }

  /** A set variable's value ends up at its path `j` when nothing later
      writes there. */
  lemma {:induction false} ApplyLands(v: Value, env: map<string, string>, ms: seq<Mapping>, i: nat, j: nat)
    requires ApplyMappings(v, env, ms).Some? && i < |ms| && j < |ms[i].paths|
    requires IsSet(env, ms[i].envVar) && LaterApart(ms, i, j)
    ensures Lookup(ApplyMappings(v, env, ms).value, ms[i].paths[j]) == Some(Text(env[ms[i].envVar]))
    decreases |ms|
  {
    assert forall i2 :: 1 <= i2 < |ms| ==> ms[1..][i2 - 1] == ms[i2];
    var w := ApplyOne(v, env, ms[0]).value;
    if i == 0 {
      WriteAllLands(v, ms[0].paths, env[ms[0].envVar], j);
      ApplyKeeps(w, env, ms[1..], ms[0].paths[j]);
    } else {
      ApplyLands(w, env, ms[1..], i - 1, j);
    }
  }

  /** Variables that are not set, or set to the empty string, change nothing. */
  lemma {:induction false} UnsetUnchanged(v: Value, env: map<string, string>, ms: seq<Mapping>)
    requires forall i :: 0 <= i < |ms| ==> !IsSet(env, ms[i].envVar)
    ensures ApplyMappings(v, env, ms) == Some(v)
    decreases |ms|
  {
    if |ms| > 0 {
      assert forall i :: 1 <= i < |ms| ==> ms[1..][i - 1] == ms[i];
      UnsetUnchanged(v, env, ms[1..]);
    }
  }

  /** A variable no mapping names has no effect, whatever its value. */
  lemma {:induction false} OtherVariableIgnored(v: Value, env: map<string, string>, ms: seq<Mapping>, name: string, value: string)
    requires forall i :: 0 <= i < |ms| ==> ms[i].envVar != name
    ensures ApplyMappings(v, env[name := value], ms) == ApplyMappings(v, env, ms)
    decreases |ms|
  {
    if |ms| > 0 {
      assert forall i :: 1 <= i < |ms| ==> ms[1..][i - 1] == ms[i];
      var e := env[name := value];
      assert IsSet(e, ms[0].envVar) == IsSet(env, ms[0].envVar);
      var o := ApplyOne(v, env, ms[0]);
      assert ApplyOne(v, e, ms[0]) == o;
      if o.Some? {
        OtherVariableIgnored(o.value, env, ms[1..], name, value);
      }
    }
  }

  // ---------------------------------------------------------------- the table

  /** The sections `env_mappings` writes into. */
  const SecretSections: set<string> := {"ai", "whisper", "diarization"}

  lemma TableShape()
    ensures Shaped(EnvMappings)
    ensures forall i, j :: 0 <= i < |EnvMappings| && 0 <= j < |EnvMappings[i].paths| ==>
      EnvMappings[i].paths[j][0] in SecretSections
  {
  }

  /** No two entries of the table write the same setting. */
  lemma TableApart(i: nat, j: nat)
    requires i < |EnvMappings| && j < |EnvMappings[i].paths|
    ensures LaterApart(EnvMappings, i, j)
  {
  }

  /** After the writes succeed, every set variable's value is at every
      setting it is mapped to. */
  lemma EnvWritten(v: Value, env: map<string, string>, i: nat, j: nat)
    requires ApplyMappings(v, env, EnvMappings).Some?
    requires i < |EnvMappings| && j < |EnvMappings[i].paths| && IsSet(env, EnvMappings[i].envVar)
    ensures Lookup(ApplyMappings(v, env, EnvMappings).value, EnvMappings[i].paths[j]) ==
      Some(Text(env[EnvMappings[i].envVar]))
  {
    TableApart(i, j);
    ApplyLands(v, env, EnvMappings, i, j);
  }

  /** Some set variable is mapped into a section of `c` that is neither a
      mapping nor absent. */
  predicate Blocked(c: Value, env: map<string, string>)
  {
    exists i, j :: (0 <= i < |EnvMappings| && 0 <= j < |EnvMappings[i].paths| &&
      IsSet(env, EnvMappings[i].envVar) && !Sectioned(c, EnvMappings[i].paths[j][0]))
  }

  /** A document whose secret sections are mappings or absent always takes
      the environment's keys; one whose section of a set variable is anything
      else makes the loader fall back to the default configuration. */
  lemma LoadedSections(c: Value, env: map<string, string>)
    ensures (forall s :: s in SecretSections ==> Sectioned(c, s)) ==>
      ApplyMappings(c, env, EnvMappings).Some? && LoadedData(Some(c), env) == ApplyMappings(c, env, EnvMappings).value
    ensures Blocked(c, env) <==> LoadedData(Some(c), env) == DefaultConfig && ApplyMappings(c, env, EnvMappings).None?
  {
    TableShape();
    ApplySucceeds(c, env, EnvMappings);
  }

  /** The dotted key of a setting the table writes reads back the variable's
      value, in a document whose secret sections are mappings or absent. */
  lemma EnvReadBack(c: Value, env: map<string, string>, i: nat, j: nat, default: Value)
    requires forall s :: s in SecretSections ==> Sectioned(c, s)
    requires i < |EnvMappings| && j < |EnvMappings[i].paths| && IsSet(env, EnvMappings[i].envVar)
    requires forall k :: 0 <= k < |EnvMappings[i].paths[j]| ==> NoneIn(EnvMappings[i].paths[j][k], {'.'})
    ensures Found(LoadedData(Some(c), env), KeysOf(Join(EnvMappings[i].paths[j], ".")), default) ==
      Text(env[EnvMappings[i].envVar])
  {
    LoadedSections(c, env);
    EnvWritten(c, env, i, j);
    TableShape();
    DottedKey(EnvMappings[i].paths[j]);
  }

  /** With `QWEN_API_KEY` set, `ai.qwen_api_key` reads back its value. */
  lemma QwenKeyAi(c: Value, env: map<string, string>, default: Value)
    requires forall s :: s in SecretSections ==> Sectioned(c, s)
    requires IsSet(env, "QWEN_API_KEY")
    ensures Found(LoadedData(Some(c), env), KeysOf(Join(["ai", "qwen_api_key"], ".")), default) == Text(env["QWEN_API_KEY"])
  {
    EnvReadBack(c, env, 0, 0, default);
  }

  /** With `QWEN_API_KEY` set, `whisper.qwen_api_key` reads it back too. */
  lemma QwenKeyWhisper(c: Value, env: map<string, string>, default: Value)
    requires forall s :: s in SecretSections ==> Sectioned(c, s)
    requires IsSet(env, "QWEN_API_KEY")
    ensures Found(LoadedData(Some(c), env), KeysOf(Join(["whisper", "qwen_api_key"], ".")), default) == Text(env["QWEN_API_KEY"])
  {
    EnvReadBack(c, env, 0, 1, default);
  }

  /** An `ai` section that is not a mapping (an empty `ai:` is null) together
      with `QWEN_API_KEY` discards the whole file: the default configuration,
      which has no `ai` section, is used and the key reads as the default. */
  lemma NullSectionDiscardsFile(c: Value, env: map<string, string>, default: Value)
    requires c.Dict? && "ai" in c.entries && !c.entries["ai"].Dict?
    requires IsSet(env, "QWEN_API_KEY")
    ensures LoadedData(Some(c), env) == DefaultConfig
    ensures Found(LoadedData(Some(c), env), KeysOf(Join(["ai", "qwen_api_key"], ".")), default) == default
  {
    LoadedSections(c, env);
    assert !Sectioned(c, EnvMappings[0].paths[0][0]);
    DottedKey(["ai", "qwen_api_key"]);
    assert "ai" !in DefaultConfig.entries;
  }

  /** Without any of the table's variables set, the file is used as it is. */
  lemma NoSecretsUnchanged(c: Value, env: map<string, string>)
    requires forall i :: 0 <= i < |EnvMappings| ==> !IsSet(env, EnvMappings[i].envVar)
    ensures LoadedData(Some(c), env) == c
  {
    UnsetUnchanged(c, env, EnvMappings);
  }

  /** Settings outside the table keep the file's values. */
  lemma OtherSettingsKept(c: Value, env: map<string, string>, p: Path)
    requires ApplyMappings(c, env, EnvMappings).Some?
    requires forall i, j :: 0 <= i < |EnvMappings| && 0 <= j < |EnvMappings[i].paths| ==> Apart(p, EnvMappings[i].paths[j])
    ensures Lookup(LoadedData(Some(c), env), p) == Lookup(c, p)
  {
    ApplyKeeps(c, env, EnvMappings, p);
  }

  /** Variables outside the table do not matter. */
  lemma OtherVariablesIgnored(loaded: Option<Value>, env: map<string, string>, name: string, value: string)
    requires forall i :: 0 <= i < |EnvMappings| ==> EnvMappings[i].envVar != name
    ensures LoadedData(loaded, env[name := value]) == LoadedData(loaded, env)
  {
    if loaded.Some? {
      OtherVariableIgnored(loaded.value, env, EnvMappings, name, value);
    }
  }
}
