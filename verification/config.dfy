/**
 * Configuration overrides: JSON values, the whitelist filter applied per
 * top-level config object, the deep merge that overwrites arrays instead
 * of merging them, the nesting of dotted URL parameters into a JSON
 * object, and the fallback configuration built from a base URL.
 */
module Config {
  import opened Wrappers
  import Text

  /**
   * JSON values; numbers are integers here. An array also carries the
   * named properties a script may have assigned to it, which JSON text
   * cannot express but the nesting of URL parameters can create.
   */
  datatype Json =
    | JNull
    | JBool(b: bool)
    | JNum(n: int)
    | JStr(s: string)
    | JArr(items: seq<Json>, props: map<string, Json>)
    | JObj(fields: map<string, Json>)

  type Object = map<string, Json>

  const CONFIG := "config"
  const INTERFACE_CONFIG := "interfaceConfig"
  const LOGGING_CONFIG := "loggingConfig"

  /** JavaScript truthiness of a JSON value. */
  predicate Truthy(j: Json) {
    match j
    case JNull => false
    case JBool(b) => b
    case JNum(n) => n != 0
    case JStr(s) => s != ""
    case JArr(_, _) => true
    case JObj(_) => true
  }

  /**
   * A truthy boolean, number or string: a primitive, on which assigning a
   * property throws in strict-mode code.
   */
  predicate TruthyPrimitive(j: Json) {
    Truthy(j) && (j.JBool? || j.JNum? || j.JStr?)
  }

  /** `_.isEmpty(value)`: empty collections and strings, and every other scalar. */
  predicate IsEmpty(j: Json) {
    match j
    case JObj(m) => |m| == 0
    case JArr(a, _) => |a| == 0
    case JStr(s) => |s| == 0
    case _ => true
  }

  // ------------------------------------------------------ merge

  /** One key of the merge: nested objects merge, anything else from the source replaces. */
  function MergeValue(prior: Option<Json>, incoming: Json): (r: Json)
    decreases incoming, 1
  {
    if prior.Some? && prior.value.JObj? && incoming.JObj? then JObj(Merge(prior.value.fields, incoming.fields))
    else incoming
  }

  /**
   * `_.mergeWith(target, source, c)` where `c` returns the source value when
   * the target value is an array: keys only in the target keep their value;
   * where both sides hold objects they merge recursively; otherwise the
   * source value replaces the target value, arrays included.
   */
  function Merge(t: Object, s: Object): (r: Object)
    decreases JObj(s), 0
    ensures r.Keys == t.Keys + s.Keys
    ensures forall k :: k in t && k !in s ==> r[k] == t[k]
    ensures forall k :: k in s && !(k in t && t[k].JObj? && s[k].JObj?) ==> r[k] == s[k]
    ensures forall k :: k in s && k in t && t[k].JObj? && s[k].JObj? ==>
              r[k] == JObj(Merge(t[k].fields, s[k].fields))
  {
    map k | k in t.Keys + s.Keys ::
      if k in s then MergeValue(if k in t then Some(t[k]) else None, s[k]) else t[k]
  }

  /** Merging the same source twice is merging it once. */
  lemma {:induction false} MergeIdempotent(t: Object, s: Object)
    ensures Merge(Merge(t, s), s) == Merge(t, s)
    decreases JObj(s)
  {
    var once := Merge(t, s);
    forall k | k in s && s[k].JObj?
      ensures Merge(once, s)[k] == once[k]
    {
      if k in t && t[k].JObj? {
        MergeIdempotent(t[k].fields, s[k].fields);
      } else {
        MergeSelf(s[k].fields);
      }
    }
  }

  /** An object merged into itself is unchanged. */
  lemma {:induction false} MergeSelf(s: Object)
    ensures Merge(s, s) == s
    decreases JObj(s)
  {
    forall k | k in s && s[k].JObj?
      ensures Merge(s, s)[k] == s[k]
    {
      MergeSelf(s[k].fields);
    }
  }

  /** Merging an empty source changes nothing; merging into an empty target copies the source. */
  lemma {:induction false} MergeUnits(t: Object, s: Object)
    ensures Merge(t, map[]) == t
    ensures Merge(map[], s) == s
  {
  }

  // ------------------------------------------------------ whitelists

  /** `_.pick(m, keys)`: the entries of `m` under the listed keys. */
  function Pick(m: Object, keys: set<string>): (r: Object)
    ensures r.Keys == m.Keys * keys
    ensures forall k :: k in r ==> r[k] == m[k]
  {
    map k | k in m && k in keys :: m[k]
  }

  /**
   * The whitelists and the module's own default interface configuration,
   * which live in files outside this model.
   */
  datatype Whitelists = Whitelists(
    config: set<string>,
    interfaceConfig: set<string>,
    interfaceDefaults: Object)

  /**
   * `_getWhitelistedJSON(name, value)`: interface-config overrides are the
   * whitelisted entries of the module defaults, whatever was supplied;
   * config overrides are the whitelisted entries of the supplied object;
   * anything else passes through.
   */
  function Whitelisted(name: string, value: Json, wl: Whitelists): (r: Json)
    ensures name == INTERFACE_CONFIG ==> r == JObj(Pick(wl.interfaceDefaults, wl.interfaceConfig))
    ensures name == CONFIG ==> r.JObj? && r.fields.Keys <= wl.config
    ensures name == CONFIG && value.JObj? ==> r == JObj(Pick(value.fields, wl.config))
    ensures name == CONFIG && value.JArr? ==> r == JObj(Pick(value.props, wl.config))
    ensures name == CONFIG && !value.JObj? && !value.JArr? ==> r == JObj(map[])
    ensures name != INTERFACE_CONFIG && name != CONFIG ==> r == value
  {
    if name == INTERFACE_CONFIG then JObj(Pick(wl.interfaceDefaults, wl.interfaceConfig))
    else if name == CONFIG then
      match value
      case JObj(m) => JObj(Pick(m, wl.config))
      case JArr(_, props) => JObj(Pick(props, wl.config))
      case _ => JObj(map[])
    else value
  }

  /** The three objects an override may touch; `None` is a null target. */
  datatype Targets = Targets(
    config: Option<Object>,
    interfaceConfig: Option<Object>,
    loggingConfig: Option<Object>)

  /**
   * The override of one target by `json[name]`: nothing when the filtered
   * override is empty, otherwise the deep merge of it into the target.
   */
  function ApplyOverride(target: Object, name: string, value: Json, wl: Whitelists): (r: Object)
    ensures IsEmpty(Whitelisted(name, value, wl)) ==> r == target
    ensures Whitelisted(name, value, wl).JObj? ==> r == Merge(target, Whitelisted(name, value, wl).fields)
  {
    var filtered := Whitelisted(name, value, wl);
    if IsEmpty(filtered) then target
    else
      match filtered
      case JObj(m) => Merge(target, m)
      case _ => target
  }

  /** The override a present target receives for key `name` of `json`. */
  function OverrideOne(target: Option<Object>, name: string, json: Object, wl: Whitelists): Option<Object> {
    if target.Some? && name in json then Some(ApplyOverride(target.value, name, json[name], wl)) else target
  }

  /**
   * `overrideConfigJSON(config, interfaceConfig, loggingConfig, json)`:
   * each of the three top-level keys of `json` overrides its target when the
   * target is not null; every other key of `json` is ignored.
   */
  function OverrideConfigJSON(t: Targets, json: Object, wl: Whitelists): (r: Targets)
    ensures r.config.Some? == t.config.Some?
    ensures r.interfaceConfig.Some? == t.interfaceConfig.Some?
    ensures r.loggingConfig.Some? == t.loggingConfig.Some?
    ensures CONFIG !in json ==> r.config == t.config
    ensures INTERFACE_CONFIG !in json ==> r.interfaceConfig == t.interfaceConfig
    ensures LOGGING_CONFIG !in json ==> r.loggingConfig == t.loggingConfig
    ensures r.config.Some? ==>
              forall k :: k in r.config.value && !(k in t.config.value && r.config.value[k] == t.config.value[k])
                          ==> k in wl.config
    ensures t.config.Some? && CONFIG in json ==>
              r.config == Some(Merge(t.config.value, Whitelisted(CONFIG, json[CONFIG], wl).fields))
    ensures t.interfaceConfig.Some? && INTERFACE_CONFIG in json ==>
              r.interfaceConfig == Some(ApplyOverride(t.interfaceConfig.value, INTERFACE_CONFIG, JNull, wl))
    ensures t.loggingConfig.Some? && LOGGING_CONFIG in json && json[LOGGING_CONFIG].JObj? ==>
              r.loggingConfig == Some(Merge(t.loggingConfig.value, json[LOGGING_CONFIG].fields))
  {
    MergeUnits(if t.config.Some? then t.config.value else map[], map[]);
    Targets(OverrideOne(t.config, CONFIG, json, wl),
            OverrideOne(t.interfaceConfig, INTERFACE_CONFIG, json, wl),
            OverrideOne(t.loggingConfig, LOGGING_CONFIG, json, wl))
  }

  /** Only the three known top-level keys of an override matter. */
  lemma {:induction false} OtherKeysIgnored(t: Targets, json: Object, wl: Whitelists)
    ensures OverrideConfigJSON(t, json, wl)
            == OverrideConfigJSON(t, Pick(json, {CONFIG, INTERFACE_CONFIG, LOGGING_CONFIG}), wl)
  {
  }

  /** The supplied interface-config values never reach the target. */
  lemma {:induction false} InterfaceConfigIgnoresSupplied(t: Targets, json1: Object, json2: Object, wl: Whitelists)
    requires INTERFACE_CONFIG in json1 <==> INTERFACE_CONFIG in json2
    ensures OverrideConfigJSON(t, json1, wl).interfaceConfig == OverrideConfigJSON(t, json2, wl).interfaceConfig
  {
  }

  /** Applying the same override twice gives the same objects as applying it once. */
  lemma {:induction false} OverrideIdempotent(t: Targets, json: Object, wl: Whitelists)
    ensures OverrideConfigJSON(OverrideConfigJSON(t, json, wl), json, wl) == OverrideConfigJSON(t, json, wl)
  {
    if t.config.Some? && CONFIG in json && Whitelisted(CONFIG, json[CONFIG], wl).JObj? {
      MergeIdempotent(t.config.value, Whitelisted(CONFIG, json[CONFIG], wl).fields);
    }
    if t.interfaceConfig.Some? && INTERFACE_CONFIG in json {
      MergeIdempotent(t.interfaceConfig.value, Whitelisted(INTERFACE_CONFIG, json[INTERFACE_CONFIG], wl).fields);
    }
    if t.loggingConfig.Some? && LOGGING_CONFIG in json && json[LOGGING_CONFIG].JObj? {
      MergeIdempotent(t.loggingConfig.value, json[LOGGING_CONFIG].fields);
    }
  }

  // ------------------------------------------------------ URL parameters

  /**
   * What `base = base[name] = base[name] || {}` descends into: an object's
   * fields, an array's named properties, or a fresh object in place of a
   * missing or falsy value.
   */
  function ChildOf(m: Object, name: string): Object {
    if name in m && m[name].JObj? then m[name].fields
    else if name in m && m[name].JArr? then m[name].props
    else map[]
  }

  /** The value left at `name` once its child object is `c`; an array keeps its items. */
  function WithChild(m: Object, name: string, c: Object): Json {
    if name in m && m[name].JArr? then JArr(m[name].items, c) else JObj(c)
  }

  /** Some step before the last meets a truthy primitive, where assigning a property throws. */
  predicate PathBlocked(m: Object, path: seq<string>)
    decreases |path|
  {
    && |path| > 1
    && (|| (path[0] in m && TruthyPrimitive(m[path[0]]))
        || PathBlocked(ChildOf(m, path[0]), path[1..]))
  }

  /**
   * `base[name] || {}` along a path, then `base[last] = value`: a falsy
   * value on the way is replaced by a fresh object, and an object or an
   * array on the way receives the next key. `None` exactly when the path
   * runs through a truthy boolean, number or string, where the assignment
   * throws.
   */
  function SetPath(m: Object, path: seq<string>, value: Json): (r: Option<Object>)
    requires |path| >= 1
    ensures r.None? <==> PathBlocked(m, path)
    ensures r.Some? ==> r.value.Keys == m.Keys + {path[0]}
    ensures r.Some? ==> forall k :: k in m && k != path[0] ==> r.value[k] == m[k]
    ensures |path| == 1 ==> r == Some(m[path[0] := value])
    ensures r.Some? && |path| > 1 && path[0] in m && m[path[0]].JArr? ==>
              r.value[path[0]].JArr? && r.value[path[0]].items == m[path[0]].items
    decreases |path|
  {
    if |path| == 1 then Some(m[path[0] := value])
    else
      var name := path[0];
      if name in m && TruthyPrimitive(m[name]) then None
      else
        match SetPath(ChildOf(m, name), path[1..], value)
        case None => None
        case Some(c) => Some(m[name := WithChild(m, name, c)])
  }

  /** The value at `path`, if every step is an object holding the next key. */
  function Get(m: Object, path: seq<string>): (r: Option<Json>)
    requires |path| >= 1
    ensures r.Some? ==> path[0] in m
    decreases |path|
  {
    if path[0] !in m then None
    else if |path| == 1 then Some(m[path[0]])
    else
      match m[path[0]]
      case JObj(child) => Get(child, path[1..])
      case JArr(_, props) => Get(props, path[1..])
      case _ => None
  }

  /** A value set at a path is read back from it. */
  lemma {:induction false} GetSetPath(m: Object, path: seq<string>, value: Json)
    requires |path| >= 1
    requires SetPath(m, path, value).Some?
    ensures Get(SetPath(m, path, value).value, path) == Some(value)
    decreases |path|
  {
    if |path| > 1 {
      var name := path[0];
      var child := ChildOf(m, name);
      GetSetPath(child, path[1..], value);
      var c := SetPath(child, path[1..], value).value;
      assert SetPath(m, path, value).value[name] == WithChild(m, name, c);
    }
  }

  /** Setting a path never fails when the first step is missing. */
  lemma {:induction false} SetPathFresh(m: Object, path: seq<string>, value: Json)
    requires |path| >= 1 && path[0] !in m
    ensures SetPath(m, path, value).Some?
    decreases |path|
  {
    if |path| > 1 {
      SetPathFresh(map[], path[1..], value);
    }
  }

  /** Setting a path twice leaves what setting it the second time alone would. */
  lemma {:induction false} SetPathOverwrites(m: Object, path: seq<string>, v1: Json, v2: Json)
    requires |path| >= 1
    requires SetPath(m, path, v1).Some?
    ensures SetPath(SetPath(m, path, v1).value, path, v2) == SetPath(m, path, v2)
    decreases |path|
  {
    if |path| > 1 {
      var name := path[0];
      var child := ChildOf(m, name);
      SetPathOverwrites(child, path[1..], v1, v2);
      var c1 := SetPath(child, path[1..], v1).value;
      var m1 := m[name := WithChild(m, name, c1)];
      assert SetPath(m, path, v1) == Some(m1);
      assert ChildOf(m1, name) == c1 && !TruthyPrimitive(m1[name]);
      var r2 := SetPath(child, path[1..], v2);
      assert SetPath(c1, path[1..], v2) == r2;
      assert SetPath(m1, path, v2) == if r2.None? then None else Some(m1[name := WithChild(m1, name, r2.value)]);
      assert SetPath(m, path, v2) == if r2.None? then None else Some(m[name := WithChild(m, name, r2.value)]);
      if r2.Some? {
        assert WithChild(m1, name, r2.value) == WithChild(m, name, r2.value);
        UpdateTwice(m, name, WithChild(m, name, c1), WithChild(m, name, r2.value));
      }
    } else {
      UpdateTwice(m, path[0], v1, v2);
    }
  }

  /** Assigning a key twice keeps only the second value. */
  lemma {:induction false} UpdateTwice(m: Object, k: string, a: Json, b: Json)
    ensures m[k := a][k := b] == m[k := b]
  {
    assert m[k := a][k := b].Keys == m[k := b].Keys;
  }

  /** A URL parameter: its dotted name and its parsed value. */
  datatype Param = Param(name: string, value: Json)

  /**
   * The override object built from URL parameters in order: roots for the
   * non-null targets first, then each parameter set at the path its name
   * spells. `None` when an assignment would throw.
   */
  function ParamsToJson(json: Object, params: seq<Param>): (r: Option<Object>)
    decreases |params|
  {
    if |params| == 0 then Some(json)
    else
      match SetPath(json, Text.SplitDots(params[0].name), params[0].value)
      case None => None
      case Some(j) => ParamsToJson(j, params[1..])
  }

  /** Of two parameters with the same name, the later one wins. */
  lemma {:induction false} LaterParamWins(json: Object, name: string, v1: Json, v2: Json)
    requires ParamsToJson(json, [Param(name, v1)]).Some?
    ensures ParamsToJson(json, [Param(name, v1), Param(name, v2)]) == ParamsToJson(json, [Param(name, v2)])
  {
    var path := Text.SplitDots(name);
    var ps := [Param(name, v1), Param(name, v2)];
    assert ps[1..] == [Param(name, v2)];
    assert [Param(name, v1)][1..] == [];
    assert [Param(name, v2)][1..] == [];
    SetPathOverwrites(json, path, v1, v2);
  }

  /** The roots created before the parameters: one empty object per non-null target. */
  function Roots(t: Targets): (r: Object)
    ensures CONFIG in r <==> t.config.Some?
    ensures INTERFACE_CONFIG in r <==> t.interfaceConfig.Some?
    ensures LOGGING_CONFIG in r <==> t.loggingConfig.Some?
    ensures forall k :: k in r ==> r[k] == JObj(map[])
  {
    var c: Object := if t.config.Some? then map[CONFIG := JObj(map[])] else map[];
    var i: Object := if t.interfaceConfig.Some? then c[INTERFACE_CONFIG := JObj(map[])] else c;
    if t.loggingConfig.Some? then i[LOGGING_CONFIG := JObj(map[])] else i
  }

  /**
   * `setConfigFromURLParams(config, interfaceConfig, loggingConfig, location)`
   * with the location already parsed into parameters. `None` when nesting a
   * parameter would throw.
   */
  function SetConfigFromURLParams(t: Targets, params: seq<Param>, wl: Whitelists): (r: Option<Targets>)
    ensures r.Some? <==> ParamsToJson(Roots(t), params).Some?
    ensures r.Some? ==> r.value.config.Some? == t.config.Some?
                        && r.value.interfaceConfig.Some? == t.interfaceConfig.Some?
                        && r.value.loggingConfig.Some? == t.loggingConfig.Some?
  {
    match ParamsToJson(Roots(t), params)
    case None => None
    case Some(json) => Some(OverrideConfigJSON(t, json, wl))
  }

  /** Nesting one more parameter after a run of them. */
  lemma {:induction false} ParamsSnoc(json: Object, params: seq<Param>, p: Param)
    ensures ParamsToJson(json, params + [p])
            == match ParamsToJson(json, params)
               case None => None
               case Some(j) => SetPath(j, Text.SplitDots(p.name), p.value)
    decreases |params|
  {
    if |params| == 0 {
      assert params + [p] == [p];
      assert [p][1..] == [];
    } else {
      assert (params + [p])[0] == params[0];
      assert (params + [p])[1..] == params[1..] + [p];
      match SetPath(json, Text.SplitDots(params[0].name), params[0].value)
      case None =>
      case Some(j) => ParamsSnoc(j, params[1..], p);
    }
  }

  /**
   * A last parameter `config.<key>` with a whitelisted, dot-free key and a
   * non-object value, after any earlier parameters: it fails exactly when
   * the earlier ones left a truthy primitive under `config`, and otherwise
   * its value ends up in the config object under that key.
   */
  lemma {:induction false} ConfigParamReachesTarget(t: Targets, params: seq<Param>, key: string, value: Json,
                                                    wl: Whitelists)
    requires t.config.Some?
    requires key in wl.config && '.' !in key
    requires !value.JObj?
    ensures var before := ParamsToJson(Roots(t), params);
            var r := SetConfigFromURLParams(t, params + [Param(CONFIG + "." + key, value)], wl);
            && (r.Some? <==> before.Some? && CONFIG in before.value && !TruthyPrimitive(before.value[CONFIG]))
            && (r.Some? ==> key in r.value.config.value && r.value.config.value[key] == value)
  {
    var name := CONFIG + "." + key;
    assert Text.JoinDots([CONFIG, key]) == name;
    Text.SplitDotsOf([CONFIG, key]);
    assert Text.SplitDots(name) == [CONFIG, key];
    ParamsSnoc(Roots(t), params, Param(name, value));
    var before := ParamsToJson(Roots(t), params);
    if before.Some? {
      var j := before.value;
      ParamsKeepKeys(Roots(t), params);
      assert CONFIG in j;
      if !TruthyPrimitive(j[CONFIG]) {
        var child := ChildOf(j, CONFIG);
        assert [CONFIG, key][1..] == [key];
        assert SetPath(child, [key], value) == Some(child[key := value]);
        var j1 := j[CONFIG := WithChild(j, CONFIG, child[key := value])];
        assert SetPath(j, [CONFIG, key], value) == Some(j1);
        var picked := Whitelisted(CONFIG, j1[CONFIG], wl).fields;
        assert key in picked && picked[key] == value;
        var merged := Merge(t.config.value, picked);
        assert key in merged && merged[key] == value;
      }
    }
  }

  /**
   * When an interface-config target exists, the URL-parameter path always
   * merges the whitelisted module defaults into it, whatever the parameters.
   */
  lemma {:induction false} InterfaceDefaultsAlwaysApplied(t: Targets, params: seq<Param>, wl: Whitelists)
    requires t.interfaceConfig.Some?
    requires SetConfigFromURLParams(t, params, wl).Some?
    ensures SetConfigFromURLParams(t, params, wl).value.interfaceConfig
            == Some(ApplyOverride(t.interfaceConfig.value, INTERFACE_CONFIG, JNull, wl))
  {
    ParamsKeepKeys(Roots(t), params);
  }

  /** Nesting parameters never drops a top-level key. */
  lemma {:induction false} ParamsKeepKeys(json: Object, params: seq<Param>)
    requires ParamsToJson(json, params).Some?
    ensures json.Keys <= ParamsToJson(json, params).value.Keys
    decreases |params|
  {
    if |params| > 0 {
      var j := SetPath(json, Text.SplitDots(params[0].name), params[0].value).value;
      ParamsKeepKeys(j, params[1..]);
    }
  }

  // ------------------------------------------------------ fallback configuration

  /**
   * `createFakeConfig(baseURL)`, with the host name of `baseURL` given:
   * hosts at that domain and its conference subdomain, BOSH under the base
   * URL, peer-to-peer enabled.
   */
  function CreateFakeConfig(baseURL: string, hostname: string): (r: Object)
    ensures r.Keys == {"hosts", "bosh", "clientNode", "p2p"}
    ensures Get(r, ["hosts", "domain"]) == Some(JStr(hostname))
    ensures Get(r, ["hosts", "muc"]) == Some(JStr("conference." + hostname))
    ensures Get(r, ["bosh"]) == Some(JStr(baseURL + "http-bind"))
    ensures Get(r, ["p2p", "enabled"]) == Some(JBool(true))
  {
    map[
      "hosts" := JObj(map["domain" := JStr(hostname), "muc" := JStr("conference." + hostname)]),
      "bosh" := JStr(baseURL + "http-bind"),
      "clientNode" := JStr("https://jitsi.org/jitsi-meet"),
      "p2p" := JObj(map["enabled" := JBool(true)])]
  }
}
