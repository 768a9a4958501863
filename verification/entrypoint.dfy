/**
 The `Entrypoint` value object: one web application's document root and the
 names of its original and relocated entrypoint files, validated from a
 configuration array.
 */
module Entrypoints {
  import opened Errors
  import opened Paths

  /** A configuration value as PHP sees it: a string, or anything else (null, int, array ...). */
  datatype ConfigValue = Str(s: string) | NonString

  /** One entry of the `entrypoints` configuration list. */
  type Config = map<string, ConfigValue>

  const WebDirKey: string := "web-dir"
  const MainEntrypointKey: string := "main-entrypoint"
  const AppEntrypointKey: string := "app-entrypoint"
  const DefaultMainEntrypoint: string := "index.php"
  const DefaultAppEntrypoint: string := "app.php"

  /**
   `webDirectory` is already resolved against the base directory; the two
   entrypoints are stored as the configured bare file names and only joined
   with the web directory when asked for.
   */
  datatype Entrypoint = Entrypoint(webDirectory: string, mainEntrypoint: string, appEntrypoint: string) {

    function WebDirectory(): string {
      webDirectory
    }

    /** Full path of the original entrypoint. */
    function MainPath(paths: PathOps): string {
      paths.join(webDirectory, mainEntrypoint)
    }

    /** Full path the original entrypoint is moved to. */
    function AppPath(paths: PathOps): string {
      paths.join(webDirectory, appEntrypoint)
    }
  }

  /**
   Reads one option. An absent key with a default yields the default; an
   absent key without one, or a value that is not a string, is invalid; the
   empty string is reported as empty; any other string is returned as is.
   */
  function ParseConfig(config: Config, name: string, default: Option<string>): (r: Result<string>)
    requires default.Some? ==> default.value != ""
    ensures r.Ok? <==>
              if name in config then config[name].Str? && config[name].s != "" else default.Some?
    ensures r.Ok? ==> r.value != ""
    ensures r.Ok? && name in config ==> config[name] == Str(r.value)
    ensures r.Ok? && name !in config ==> default == Some(r.value)
    ensures r.Err? ==> r.error == ConfigIsInvalid(name) || r.error == ConfigIsEmpty(name)
    ensures r.Err? ==> (r.error == ConfigIsEmpty(name) <==> name in config && config[name] == Str(""))
  {
    if name !in config && default.Some? then
      Ok(default.value)
    else
      var value := if name in config then config[name] else NonString;
      if !value.Str? then
        Err(ConfigIsInvalid(name))
      else if value.s == "" then
        Err(ConfigIsEmpty(name))
      else
        Ok(value.s)
  }

  /**
   Builds an entrypoint from one configuration entry. The keys are checked in
   the order web-dir, main-entrypoint, app-entrypoint and the first failure
   is the one reported.
   */
  function FromConfig(config: Config, baseDirectory: string, paths: PathOps): (r: Result<Entrypoint>)
    ensures var web := ParseConfig(config, WebDirKey, None);
            var main := ParseConfig(config, MainEntrypointKey, Some(DefaultMainEntrypoint));
            var app := ParseConfig(config, AppEntrypointKey, Some(DefaultAppEntrypoint));
            && (web.Err? ==> r == Err(web.error))
            && (web.Ok? && main.Err? ==> r == Err(main.error))
            && (web.Ok? && main.Ok? && app.Err? ==> r == Err(app.error))
            && (r.Ok? <==> web.Ok? && main.Ok? && app.Ok?)
            && (r.Ok? ==> r.value == Entrypoint(paths.join(baseDirectory, web.value), main.value, app.value))
  {
    var webDirectory :- ParseConfig(config, WebDirKey, None);
    var mainEntrypoint :- ParseConfig(config, MainEntrypointKey, Some(DefaultMainEntrypoint));
    var appEntrypoint :- ParseConfig(config, AppEntrypointKey, Some(DefaultAppEntrypoint));
    Ok(Entrypoint(paths.join(baseDirectory, webDirectory), mainEntrypoint, appEntrypoint))
  }

  /** A successfully built entrypoint never holds an empty file name. */
  lemma FromConfigNamesNonEmpty(config: Config, baseDirectory: string, paths: PathOps)
    requires FromConfig(config, baseDirectory, paths).Ok?
    ensures var e := FromConfig(config, baseDirectory, paths).value;
            e.mainEntrypoint != "" && e.appEntrypoint != ""
  {
  }

  /**
   With only `web-dir` configured the defaults apply, and the getters join the
   bare default names onto the resolved web directory.
   */
  lemma DefaultsApply(webDir: string, baseDirectory: string, paths: PathOps)
    requires webDir != ""
    ensures var r := FromConfig(map[WebDirKey := Str(webDir)], baseDirectory, paths);
            && r.Ok?
            && r.value.WebDirectory() == paths.join(baseDirectory, webDir)
            && r.value.mainEntrypoint == "index.php"
            && r.value.appEntrypoint == "app.php"
            && r.value.MainPath(paths) == paths.join(paths.join(baseDirectory, webDir), "index.php")
            && r.value.AppPath(paths) == paths.join(paths.join(baseDirectory, webDir), "app.php")
  {
  }

  /**
   The value object keeps bare entrypoint names: the web directory is the
   configured one joined onto the base directory, and the getters join the
   configured (or default) names onto it.
   */
  lemma GettersJoinStoredNames(config: Config, baseDirectory: string, paths: PathOps)
    requires FromConfig(config, baseDirectory, paths).Ok?
    ensures var e := FromConfig(config, baseDirectory, paths).value;
            var main := if MainEntrypointKey in config then config[MainEntrypointKey].s else DefaultMainEntrypoint;
            var app := if AppEntrypointKey in config then config[AppEntrypointKey].s else DefaultAppEntrypoint;
            && WebDirKey in config && config[WebDirKey].Str?
            && e.WebDirectory() == paths.join(baseDirectory, config[WebDirKey].s)
            && e.MainPath(paths) == paths.join(e.WebDirectory(), main)
            && e.AppPath(paths) == paths.join(e.WebDirectory(), app)
  {
  }

  /** `web-dir` has no default: leaving it out is an invalid configuration. */
  lemma MissingWebDirIsInvalid(config: Config, baseDirectory: string, paths: PathOps)
    requires WebDirKey !in config
    ensures FromConfig(config, baseDirectory, paths) == Err(ConfigIsInvalid("web-dir"))
  {
  }

  /**
   A key whose value is not a string is invalid even when the key has a
   default, provided every key before it is valid.
   */
  lemma NonStringIsInvalid(config: Config, baseDirectory: string, paths: PathOps, name: string)
    requires name in {WebDirKey, MainEntrypointKey, AppEntrypointKey}
    requires name in config && config[name] == NonString
    requires name != WebDirKey ==> WebDirKey in config && config[WebDirKey].Str? && config[WebDirKey].s != ""
    requires name == AppEntrypointKey ==> MainEntrypointKey !in config || (config[MainEntrypointKey].Str? && config[MainEntrypointKey].s != "")
    ensures FromConfig(config, baseDirectory, paths) == Err(ConfigIsInvalid(name))
  {
  }

  /**
   A key holding the empty string is reported as empty, never as invalid,
   provided every key before it is valid.
   */
  lemma EmptyStringIsEmpty(config: Config, baseDirectory: string, paths: PathOps, name: string)
    requires name in {WebDirKey, MainEntrypointKey, AppEntrypointKey}
    requires name in config && config[name] == Str("")
    requires name != WebDirKey ==> WebDirKey in config && config[WebDirKey].Str? && config[WebDirKey].s != ""
    requires name == AppEntrypointKey ==> MainEntrypointKey !in config || (config[MainEntrypointKey].Str? && config[MainEntrypointKey].s != "")
    ensures FromConfig(config, baseDirectory, paths) == Err(ConfigIsEmpty(name))
  {
  }
}
