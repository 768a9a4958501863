/**
 The Codeception extension that swaps application entrypoints before a suite:
 the configured entrypoints are validated once, and before the suite each one
 whose main file does not hold the freshly rendered proxy is moved aside and
 replaced by that proxy.
 */
module EntrypointModifier {
  import opened Errors
  import opened Paths
  import opened FileSystems
  import opened Entrypoints
  import opened Templates

  /** The one template the extension renders. */
  const EntrypointTemplate: string := "entrypoint.php.tpl"

  /**
   What the extension takes from its surroundings: the path primitives, the
   template renderer, Codeception's project directory and the Composer vendor
   directory.
   */
  datatype Environment = Environment(paths: PathOps, renderer: Renderer, projectDir: string, vendorDir: string)

  /**
   `_initialize`: one entrypoint per configuration entry, in list order, all
   resolved against the project directory. The first invalid entry aborts
   with its error.
   */
  method Initialize(configs: seq<Config>, env: Environment) returns (r: Result<seq<Entrypoint>>)
    ensures r.Ok? ==> |r.value| == |configs|
    ensures r.Ok? ==> forall i | 0 <= i < |configs| ::
                        FromConfig(configs[i], env.projectDir, env.paths) == Ok(r.value[i])
    ensures r.Err? ==> exists i | 0 <= i < |configs| ::
                         && FromConfig(configs[i], env.projectDir, env.paths) == Err(r.error)
                         && forall j | 0 <= j < i :: FromConfig(configs[j], env.projectDir, env.paths).Ok?
  {
    var entrypoints: seq<Entrypoint> := [];
    var i := 0;
    while i < |configs|
      invariant 0 <= i <= |configs|
      invariant |entrypoints| == i
      invariant forall j | 0 <= j < i :: FromConfig(configs[j], env.projectDir, env.paths) == Ok(entrypoints[j])
    {
      var entrypoint := FromConfig(configs[i], env.projectDir, env.paths);
      if entrypoint.Err? {
        return Err(entrypoint.error);
      }
      entrypoints := entrypoints + [entrypoint.value];
      i := i + 1;
    }
    return Ok(entrypoints);
  }

  /** PHP's `rtrim($s, $c)` for a single character `c`. */
  function RTrim(s: string, c: char): (r: string)
    ensures |r| <= |s| && r == s[..|r|]
    ensures r == [] || r[|r| - 1] != c
    ensures forall i | |r| <= i < |s| :: s[i] == c
    decreases |s|
  {
    if s != [] && s[|s| - 1] == c then RTrim(s[..|s| - 1], c) else s
  }

  /**
   The variables of the entrypoint template: the project directory without
   trailing separators, the vendor directory, and the path the original
   entrypoint is moved to.
   */
  function TemplateVariables(env: Environment, ep: Entrypoint): (vars: map<string, string>)
    ensures vars.Keys == {"projectDir", "vendorDir", "appEntrypoint"}
    ensures vars["projectDir"] == RTrim(env.projectDir, env.paths.separator)
    ensures vars["vendorDir"] == env.vendorDir
    ensures vars["appEntrypoint"] == ep.AppPath(env.paths)
    ensures ValidNames(vars)
  {
    map[
      "projectDir" := RTrim(env.projectDir, env.paths.separator),
      "vendorDir" := env.vendorDir,
      "appEntrypoint" := ep.AppPath(env.paths)
    ]
  }

  /** Where the entrypoint template is read from. */
  function TemplatePath(env: Environment): string {
    ResolveTemplate(env.paths, env.renderer, EntrypointTemplate)
  }

  /** `createEntrypoint($entrypoint)` without dumping: the proxy as rendered from `fs`. */
  function RenderEntrypoint(env: Environment, fs: FileSystem, ep: Entrypoint): Result<string> {
    Render(env.paths, env.renderer, fs, EntrypointTemplate, TemplateVariables(env, ep))
  }

  /**
   The state a swap establishes: the app entrypoint exists and the main
   entrypoint holds exactly the proxy rendered from the current filesystem.
   Content equality stands for the source's SHA-1 comparison.
   */
  predicate Settled(env: Environment, fs: FileSystem, ep: Entrypoint) {
    var rendered := RenderEntrypoint(env, fs, ep);
    && fs.Exists(ep.AppPath(env.paths))
    && rendered.Ok?
    && fs.Holds(ep.MainPath(env.paths), rendered.value)
  }

  /**
   `entrypointNeedsUpdate`: an absent app entrypoint always needs an update;
   otherwise the main entrypoint is compared with a fresh render, and a main
   file that is missing or unreadable never matches.
   */
  function NeedsUpdate(env: Environment, fs: FileSystem, ep: Entrypoint): (r: Result<bool>)
    ensures !fs.Exists(ep.AppPath(env.paths)) ==> r == Ok(true)
    ensures r == Ok(false) <==> Settled(env, fs, ep)
    ensures r.Err? <==> fs.Exists(ep.AppPath(env.paths)) && RenderEntrypoint(env, fs, ep).Err?
    ensures r.Err? ==> r.error == RenderEntrypoint(env, fs, ep).error
  {
    if !fs.Exists(ep.AppPath(env.paths)) then
      Ok(true)
    else
      var rendered :- RenderEntrypoint(env, fs, ep);
      Ok(!fs.Holds(ep.MainPath(env.paths), rendered))
  }

  /**
   `createEntrypoint($entrypoint, true)`: the main entrypoint is renamed over
   the app entrypoint first, and only then is the proxy rendered and written
   to the main path. A failed render therefore leaves the original moved.
   */
  function CreateEntrypoint(env: Environment, fs: FileSystem, ep: Entrypoint): (o: Outcome<string>)
    ensures var main := ep.MainPath(env.paths);
            var app := ep.AppPath(env.paths);
            && (!fs.Exists(main) ==> o == Outcome(fs, Err(CannotRename(main, app))))
            && (fs.Exists(main) ==> o.result == RenderEntrypoint(env, fs.Rename(main, app).value, ep))
            && (o.result.Err? && fs.Exists(main) ==> o.fs == fs.Rename(main, app).value)
            && (o.result.Ok? ==> o.fs.Holds(main, o.result.value))
            && (o.result.Ok? && main != app ==> o.fs.Exists(app) && o.fs.files[app] == fs.files[main])
            && (o.result.Ok? && main != app ==> o.fs.Read(app) == fs.Read(main))
            && (o.result.Ok? ==> o.fs.files.Keys == fs.files.Keys + {app})
            && UnchangedOutside(fs, o.fs, {main, app})
  {
    var main := ep.MainPath(env.paths);
    var app := ep.AppPath(env.paths);
    match fs.Rename(main, app)
    case Err(e) => Outcome(fs, Err(e))
    case Ok(moved) => Dump(env.paths, env.renderer, moved, EntrypointTemplate, main, TemplateVariables(env, ep))
  }

  /**
   One iteration of the `beforeSuite` loop: decide, and swap when needed.
   The result is `true` when the entrypoint was swapped.
   */
  function ProcessEntrypoint(env: Environment, fs: FileSystem, ep: Entrypoint): (o: Outcome<bool>)
    ensures o.result == Ok(false) <==> Settled(env, fs, ep)
    ensures o.result == Ok(false) ==> o.fs == fs
    ensures NeedsUpdate(env, fs, ep) != Ok(true) ==> o.fs == fs
    ensures o.result == Ok(true) ==>
              var main := ep.MainPath(env.paths);
              var app := ep.AppPath(env.paths);
              && fs.Exists(main)
              && o.fs.files.Keys == fs.files.Keys + {app}
              && (main != app ==> o.fs.files[app] == fs.files[main])
              && RenderEntrypoint(env, fs.Rename(main, app).value, ep).Ok?
              && o.fs.Holds(main, RenderEntrypoint(env, fs.Rename(main, app).value, ep).value)
    ensures UnchangedOutside(fs, o.fs, {ep.MainPath(env.paths), ep.AppPath(env.paths)})
  {
    match NeedsUpdate(env, fs, ep)
    case Err(e) => Outcome(fs, Err(e))
    case Ok(update) =>
      if !update then
        Outcome(fs, Ok(false))
      else
        var created := CreateEntrypoint(env, fs, ep);
        Outcome(created.fs, if created.result.Ok? then Ok(true) else Err(created.result.error))
  }

  /** Every path `beforeSuite` may write: the main and app paths of all entrypoints. */
  function Touched(env: Environment, eps: seq<Entrypoint>): (t: set<string>)
    ensures forall ep | ep in eps :: ep.MainPath(env.paths) in t && ep.AppPath(env.paths) in t
    decreases |eps|
  {
    if eps == [] then {}
    else {eps[0].MainPath(env.paths), eps[0].AppPath(env.paths)} + Touched(env, eps[1..])
  }

  /**
   `beforeSuite`: process the entrypoints in order; an exception stops the
   loop and the files already changed stay changed. Paths no entrypoint
   names are never modified.
   */
  function BeforeSuite(env: Environment, fs: FileSystem, eps: seq<Entrypoint>): (o: Outcome<()>)
    ensures UnchangedOutside(fs, o.fs, Touched(env, eps))
    decreases |eps|
  {
    if eps == [] then
      Outcome(fs, Ok(()))
    else
      var first := ProcessEntrypoint(env, fs, eps[0]);
      if first.result.Err? then
        Outcome(first.fs, Err(first.result.error))
      else
        BeforeSuite(env, first.fs, eps[1..])
  }

  /** The paths one iteration may change: the entrypoint's own two files when it needs an update, else none. */
  function OwnPaths(env: Environment, fs: FileSystem, ep: Entrypoint): set<string> {
    if NeedsUpdate(env, fs, ep) == Ok(true) then {ep.MainPath(env.paths), ep.AppPath(env.paths)} else {}
  }

  /** An iteration changes nothing when the entrypoint is settled or its check raises. */
  lemma ProcessChangesOnlyOwn(env: Environment, fs: FileSystem, ep: Entrypoint)
    ensures UnchangedOutside(fs, ProcessEntrypoint(env, fs, ep).fs, OwnPaths(env, fs, ep))
  {
    if NeedsUpdate(env, fs, ep) != Ok(true) {
      assert ProcessEntrypoint(env, fs, ep).fs == fs;
    }
  }

  /**
   The main and app paths of the entrypoints `beforeSuite` actually swaps:
   those found in need of an update at their turn, up to and including the
   one whose swap raises an exception.
   */
  function UpdatedPaths(env: Environment, fs: FileSystem, eps: seq<Entrypoint>): set<string>
    decreases |eps|
  {
    if eps == [] then {}
    else
      var first := ProcessEntrypoint(env, fs, eps[0]);
      if first.result.Err? then OwnPaths(env, fs, eps[0])
      else OwnPaths(env, fs, eps[0]) + UpdatedPaths(env, first.fs, eps[1..])
  }

  /**
   `beforeSuite` modifies only the files of entrypoints that needed an update:
   a settled entrypoint, and one whose check raises, is left alone.
   */
  lemma {:induction false} BeforeSuiteChangesOnlyUpdated(env: Environment, fs: FileSystem, eps: seq<Entrypoint>)
    ensures UnchangedOutside(fs, BeforeSuite(env, fs, eps).fs, UpdatedPaths(env, fs, eps))
    decreases |eps|
  {
    if eps != [] {
      var first := ProcessEntrypoint(env, fs, eps[0]);
      var own := OwnPaths(env, fs, eps[0]);
      ProcessChangesOnlyOwn(env, fs, eps[0]);
      if first.result.Ok? {
        var rest := BeforeSuite(env, first.fs, eps[1..]);
        var later := UpdatedPaths(env, first.fs, eps[1..]);
        BeforeSuiteChangesOnlyUpdated(env, first.fs, eps[1..]);
        assert BeforeSuite(env, fs, eps) == rest;
        assert UpdatedPaths(env, fs, eps) == own + later;
        forall p | p !in own + later
          ensures SameAt(fs, rest.fs, p)
        {
          assert SameAt(fs, first.fs, p);
          assert SameAt(first.fs, rest.fs, p);
        }
      }
    }
  }

  /**
   The entrypoints' files are kept apart: the template is none of them, and
   no entrypoint's main or app path is written by a later entrypoint.
   */
  predicate Separated(env: Environment, eps: seq<Entrypoint>)
    decreases |eps|
  {
    eps == [] ||
    var main := eps[0].MainPath(env.paths);
    var app := eps[0].AppPath(env.paths);
    && TemplatePath(env) != main
    && TemplatePath(env) != app
    && main !in Touched(env, eps[1..])
    && app !in Touched(env, eps[1..])
    && Separated(env, eps[1..])
  }

  /** Whether an entrypoint is settled depends only on its own two files and the template. */
  lemma SettledFrame(env: Environment, fs: FileSystem, fs': FileSystem, ep: Entrypoint)
    requires SameAt(fs, fs', ep.MainPath(env.paths))
    requires SameAt(fs, fs', ep.AppPath(env.paths))
    requires SameAt(fs, fs', TemplatePath(env))
    ensures Settled(env, fs, ep) <==> Settled(env, fs', ep)
  {
    RenderFrame(env.paths, env.renderer, fs, fs', EntrypointTemplate, TemplateVariables(env, ep));
  }

  /**
   The comparison of main against a fresh render is the right test: when the
   template is neither of the entrypoint's files, a successful iteration
   always leaves the entrypoint settled.
   */
  lemma ProcessSettles(env: Environment, fs: FileSystem, ep: Entrypoint)
    requires TemplatePath(env) != ep.MainPath(env.paths) && TemplatePath(env) != ep.AppPath(env.paths)
    requires ProcessEntrypoint(env, fs, ep).result.Ok?
    ensures Settled(env, ProcessEntrypoint(env, fs, ep).fs, ep)
  {
    var o := ProcessEntrypoint(env, fs, ep);
    if o.result == Ok(true) {
      var main := ep.MainPath(env.paths);
      var app := ep.AppPath(env.paths);
      var moved := fs.Rename(main, app).value;
      RenderFrame(env.paths, env.renderer, moved, o.fs, EntrypointTemplate, TemplateVariables(env, ep));
    }
  }

  /** When every entrypoint is settled, `beforeSuite` touches nothing. */
  lemma {:induction false} AllSettledIsNoOp(env: Environment, fs: FileSystem, eps: seq<Entrypoint>)
    requires forall ep | ep in eps :: Settled(env, fs, ep)
    ensures BeforeSuite(env, fs, eps) == Outcome(fs, Ok(()))
    decreases |eps|
  {
    if eps != [] {
      assert eps[0] in eps;
      assert forall ep | ep in eps[1..] :: ep in eps;
      AllSettledIsNoOp(env, fs, eps[1..]);
    }
  }

  /** A successful `beforeSuite` over separated entrypoints leaves every one of them settled. */
  lemma {:induction false} RunSettlesAll(env: Environment, fs: FileSystem, eps: seq<Entrypoint>)
    requires Separated(env, eps)
    requires BeforeSuite(env, fs, eps).result.Ok?
    ensures forall ep | ep in eps :: Settled(env, BeforeSuite(env, fs, eps).fs, ep)
    decreases |eps|
  {
    if eps != [] {
      var rest := eps[1..];
      var first := ProcessEntrypoint(env, fs, eps[0]);
      var last := BeforeSuite(env, first.fs, rest);
      assert last == BeforeSuite(env, fs, eps);
      ProcessSettles(env, fs, eps[0]);
      RunSettlesAll(env, first.fs, rest);
      var touched := Touched(env, rest);
      assert UnchangedOutside(first.fs, last.fs, touched);
      assert SameAt(first.fs, last.fs, eps[0].MainPath(env.paths));
      assert SameAt(first.fs, last.fs, eps[0].AppPath(env.paths));
      assert SameAt(first.fs, last.fs, TemplatePath(env)) by {
        TemplateNotTouched(env, rest);
      }
      SettledFrame(env, first.fs, last.fs, eps[0]);
      forall ep | ep in eps
        ensures Settled(env, last.fs, ep)
      {
        if ep != eps[0] {
          assert ep in rest;
        }
      }
    }
  }

  /** Under separation no entrypoint path is the template. */
  lemma {:induction false} TemplateNotTouched(env: Environment, eps: seq<Entrypoint>)
    requires Separated(env, eps)
    ensures TemplatePath(env) !in Touched(env, eps)
    decreases |eps|
  {
    if eps != [] {
      TemplateNotTouched(env, eps[1..]);
    }
  }

  /**
   Idempotence: running `beforeSuite` again right after a successful run
   changes no file.
   */
  lemma BeforeSuiteIdempotent(env: Environment, fs: FileSystem, eps: seq<Entrypoint>)
    requires Separated(env, eps)
    requires BeforeSuite(env, fs, eps).result.Ok?
    ensures var after := BeforeSuite(env, fs, eps).fs;
            BeforeSuite(env, after, eps) == Outcome(after, Ok(()))
  {
    RunSettlesAll(env, fs, eps);
    AllSettledIsNoOp(env, BeforeSuite(env, fs, eps).fs, eps);
  }

  /**
   First run: with no app entrypoint yet, the original main file is moved to
   the app path and the main path receives the rendered proxy; exactly one
   file is added.
   */
  lemma FirstRunCreatesBothFiles(env: Environment, fs: FileSystem, ep: Entrypoint)
    requires Separated(env, [ep])
    requires fs.Exists(ep.MainPath(env.paths)) && !fs.Exists(ep.AppPath(env.paths))
    requires fs.Read(TemplatePath(env)).Some?
    ensures var o := BeforeSuite(env, fs, [ep]);
            var main := ep.MainPath(env.paths);
            var app := ep.AppPath(env.paths);
            && o.result.Ok?
            && o.fs.files.Keys == fs.files.Keys + {app}
            && o.fs.files[app] == fs.files[main]
            && RenderEntrypoint(env, fs, ep).Ok?
            && o.fs.Holds(main, RenderEntrypoint(env, fs, ep).value)
  {
    var main := ep.MainPath(env.paths);
    var app := ep.AppPath(env.paths);
    var moved := fs.Rename(main, app).value;
    RenderFrame(env.paths, env.renderer, fs, moved, EntrypointTemplate, TemplateVariables(env, ep));
    assert [ep][1..] == [];
  }

  /**
   Change detection: when the main entrypoint is overwritten after a
   successful run with anything but the proxy, the next run swaps again:
   the altered file becomes the app entrypoint and the proxy is restored.
   */
  lemma ChangedMainIsSwappedAgain(env: Environment, fs: FileSystem, ep: Entrypoint, content: string)
    requires Separated(env, [ep])
    requires ep.MainPath(env.paths) != ep.AppPath(env.paths)
    requires BeforeSuite(env, fs, [ep]).result.Ok?
    requires RenderEntrypoint(env, BeforeSuite(env, fs, [ep]).fs, ep) != Ok(content)
    ensures var first := BeforeSuite(env, fs, [ep]).fs;
            var main := ep.MainPath(env.paths);
            var app := ep.AppPath(env.paths);
            var changed := first.DumpFile(main, content);
            var second := BeforeSuite(env, changed, [ep]);
            && second.result.Ok?
            && second.fs != changed
            && second.fs.files[app] == content
            && RenderEntrypoint(env, first, ep).Ok?
            && second.fs.Holds(main, RenderEntrypoint(env, first, ep).value)
  {
    var main := ep.MainPath(env.paths);
    var app := ep.AppPath(env.paths);
    RunSettlesAll(env, fs, [ep]);
    assert ep in [ep];
    var first := BeforeSuite(env, fs, [ep]).fs;
    var changed := first.DumpFile(main, content);
    RenderFrame(env.paths, env.renderer, first, changed, EntrypointTemplate, TemplateVariables(env, ep));
    var moved := changed.Rename(main, app).value;
    RenderFrame(env.paths, env.renderer, changed, moved, EntrypointTemplate, TemplateVariables(env, ep));
    assert changed.Holds(main, content);
    assert NeedsUpdate(env, changed, ep) == Ok(true);
    BeforeSuiteSingle(env, changed, ep);
  }

  /** A run over one entrypoint is one iteration of the loop. */
  lemma BeforeSuiteSingle(env: Environment, fs: FileSystem, ep: Entrypoint)
    ensures BeforeSuite(env, fs, [ep]).fs == ProcessEntrypoint(env, fs, ep).fs
    ensures BeforeSuite(env, fs, [ep]).result.Ok? <==> ProcessEntrypoint(env, fs, ep).result.Ok?
  {
    assert [ep][1..] == [];
  }

  /**
   The rename happens before the render: when the app entrypoint is absent
   and the template is missing, the run fails with the resolved template path
   after the original main file has already been moved to the app path.
   */
  lemma MissingTemplateLeavesMainMoved(env: Environment, fs: FileSystem, ep: Entrypoint)
    requires Separated(env, [ep])
    requires fs.Exists(ep.MainPath(env.paths)) && !fs.Exists(ep.AppPath(env.paths))
    requires !fs.Exists(TemplatePath(env))
    ensures var o := BeforeSuite(env, fs, [ep]);
            && o.result == Err(TemplateFileIsMissing(TemplatePath(env)))
            && !o.fs.Exists(ep.MainPath(env.paths))
            && o.fs.files[ep.AppPath(env.paths)] == fs.files[ep.MainPath(env.paths)]
  {
    var moved := fs.Rename(ep.MainPath(env.paths), ep.AppPath(env.paths)).value;
    RenderFrame(env.paths, env.renderer, fs, moved, EntrypointTemplate, TemplateVariables(env, ep));
  }
}
