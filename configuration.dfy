/** Configuration-derived data (src/config.rs): the preset list, where the file
    lives, and how environment values overlay the file's. Reading, writing and
    deserialising the file are not part of the model. */
module Configuration {
  import opened Wrappers
  import opened Errors
  import opened Core

  /** The user configuration; `formats` is the optional `[formats]` table. */
  datatype Config = Config(format: string, timezone: string, formats: Option<map<string, string>>)

  // ----- Presets -------------------------------------------------------------------

  /** An order in which a `HashMap` may yield its keys: each key exactly once.
      Rust leaves the order unspecified, so every property below holds for all of them. */
  predicate IsIterationOrder(order: seq<string>, m: map<string, string>) {
    && (forall i, j :: 0 <= i < j < |order| ==> order[i] != order[j])
    && (forall k :: k in m ==> k in order)
    && (forall i :: 0 <= i < |order| ==> order[i] in m)
  }

  /** An enumeration of a map's keys is as long as the map. */
  lemma {:induction false} IterationOrderLength(order: seq<string>, m: map<string, string>)
    requires IsIterationOrder(order, m)
    ensures |order| == |m|
    decreases |order|
  {
    if order == [] {
      assert m.Keys == {};
    } else {
      var last := order[|order| - 1];
      var rest := order[..|order| - 1];
      var m' := m - {last};
      assert last in m;
      forall k ensures k in m' <==> k in rest {
        if k in rest {
          var i :| 0 <= i < |rest| && rest[i] == k;
          assert order[i] == k && i < |order| - 1;
        }
        if k in m' {
          assert k in order && k != last;
          var i :| 0 <= i < |order| && order[i] == k;
          assert i != |order| - 1;
          assert rest[i] == k;
        }
      }
      IterationOrderLength(rest, m');
      assert |m'| == |m| - 1;
    }
  }

  /** `Config::presets`: one preset per table entry, with its name and pattern;
      none when there is no table. The names are the map's keys, so no two match. */
  function Presets(cfg: Config, order: seq<string>): (r: seq<Preset>)
    requires cfg.formats.Some? ==> IsIterationOrder(order, cfg.formats.value)
    ensures cfg.formats.None? ==> r == []
    ensures cfg.formats.Some? ==> |r| == |cfg.formats.value|
    ensures cfg.formats.Some? ==>
              forall p :: p in r <==> p.name in cfg.formats.value && cfg.formats.value[p.name] == p.format
    ensures forall i, j :: 0 <= i < j < |r| ==> r[i].name != r[j].name
  {
    match cfg.formats
    case None => []
    case Some(m) =>
      IterationOrderLength(order, m);
      var r := seq(|order|, i requires 0 <= i < |order| => Preset(order[i], m[order[i]]));
      assert forall p :: p in r ==> p.name in m && m[p.name] == p.format;
      assert forall p: Preset :: p.name in m && m[p.name] == p.format ==> p in r by {
        forall p: Preset | p.name in m && m[p.name] == p.format ensures p in r {
          var i :| 0 <= i < |order| && order[i] == p.name;
          assert r[i] == p;
        }
      }
      r
  }

  /** A format token resolves against the configured presets the same way
      whatever order the table is iterated in: to the table's pattern for that
      name, or to itself when the table has no such name. */
  lemma ResolveAgainstConfig(token: string, cfg: Config, order: seq<string>)
    requires cfg.formats.Some? ==> IsIterationOrder(order, cfg.formats.value)
    requires token != []
    ensures cfg.formats.Some? && token in cfg.formats.value ==>
              ResolveFormat(token, Presets(cfg, order)) == Ok(cfg.formats.value[token])
    ensures cfg.formats.None? || token !in cfg.formats.value ==>
              ResolveFormat(token, Presets(cfg, order)) == Ok(token)
  {
    var r := Presets(cfg, order);
    if cfg.formats.Some? && token in cfg.formats.value {
      var m := cfg.formats.value;
      var p := Preset(token, m[token]);
      assert p in r;
      var i :| 0 <= i < |r| && r[i] == p;
      assert IsFirstMatch(r, token, i);
    } else {
      forall j | 0 <= j < |r| ensures r[j].name != token {
        assert r[j] in r;
      }
      assert NoMatch(r, token);
    }
  }

  // ----- Location of the file ----------------------------------------------------

  const APP_DIR := "tardis"
  const CONFIG_FILE := "config.toml"
  const NO_CONFIG_DIR_MSG :=
    "Could not locate configuration directory; set $XDG_CONFIG_HOME or ensure the OS default exists."

  /** A path as its components, the first being the base directory as given. */
  datatype Path = Path(components: seq<string>)

  /** `Path::join` with a relative component, as both joins in `config_path`
      are: the path with one more component at the end. (An absolute
      component, which would replace the whole path, does not arise.) */
  function Join(p: Path, component: string): (r: Path)
    ensures |r.components| == |p.components| + 1
    ensures r.components[..|p.components|] == p.components
    ensures r.components[|p.components|] == component
  {
    Path(p.components + [component])
  }

  /** `config_path`: `XDG_CONFIG_HOME` whenever it is set (even to the empty
      string), else the OS config directory, then `tardis/config.toml`; with
      neither, a configuration error. */
  function ConfigPath(xdgConfigHome: Option<string>, osConfigDir: Option<string>): (r: Result<Path, Error>)
    ensures r.Ok? <==> xdgConfigHome.Some? || osConfigDir.Some?
    ensures xdgConfigHome.Some? ==> r == Ok(Path([xdgConfigHome.value, APP_DIR, CONFIG_FILE]))
    ensures xdgConfigHome.None? && osConfigDir.Some? ==> r == Ok(Path([osConfigDir.value, APP_DIR, CONFIG_FILE]))
    ensures r.Err? ==> r.error == System(SystemError.Config(NO_CONFIG_DIR_MSG)) && Exit(r.error).code == EX_CONFIG
  {
    var base :- match xdgConfigHome
                case Some(dir) => Ok(dir)
                case None =>
                  match osConfigDir
                  case Some(dir) => Ok(dir)
                  case None => Err(SystemErrorOf(NO_CONFIG_DIR_MSG));
    assert [base] + [APP_DIR] + [CONFIG_FILE] == [base, APP_DIR, CONFIG_FILE];
    Ok(Join(Join(Path([base]), APP_DIR), CONFIG_FILE))
  }

  // ----- Environment over file ------------------------------------------------------

  /** One field of the layering in `Config::load`: a `TARDIS_<FIELD>` value that
      is set and non-empty wins; an empty one is ignored. */
  function EnvOverride(env: Option<string>, file: string): (r: string)
    ensures env.Some? && env.value != [] ==> r == env.value
    ensures env.None? || env.value == [] ==> r == file
  {
    match env
    case Some(v) => if v != [] then v else file
    case None => file
  }

  /** The layering applied to `format` (`TARDIS_FORMAT`) and `timezone`
      (`TARDIS_TIMEZONE`); the preset table comes from the file. */
  function ApplyEnv(file: Config, envFormat: Option<string>, envTimezone: Option<string>): (r: Config)
    ensures r.format == (if envFormat.Some? && envFormat.value != [] then envFormat.value else file.format)
    ensures r.timezone == (if envTimezone.Some? && envTimezone.value != [] then envTimezone.value else file.timezone)
    ensures r.formats == file.formats
  {
    Config.Config(EnvOverride(envFormat, file.format), EnvOverride(envTimezone, file.timezone), file.formats)
  }

  /** An empty environment value is the same as none, and layering twice is
      layering once. */
  lemma EmptyEnvIsIgnored(file: Config, envFormat: Option<string>, envTimezone: Option<string>)
    ensures ApplyEnv(file, Some([]), Some([])) == file
    ensures ApplyEnv(ApplyEnv(file, envFormat, envTimezone), envFormat, envTimezone) == ApplyEnv(file, envFormat, envTimezone)
  {
  }
}
