# Entrypoint swapping for TYPO3 Codeception suites, in Dafny

This project models the entrypoint-swap pipeline of the Composer package
`eliashaeussler/typo3-codeception-helper`. Before an acceptance suite starts,
the `ApplicationEntrypointModifier` extension makes every configured web
application serve its requests through a generated proxy entrypoint:

- `Entrypoints` (`src/ValueObject/Entrypoint.php`): validating one
  `entrypoints` configuration entry (`web-dir`, `main-entrypoint` with default
  `index.php`, `app-entrypoint` with default `app.php`) into an immutable
  `Entrypoint`. Absent-without-default and non-string values are
  `ConfigIsInvalid`; the empty string is `ConfigIsEmpty`.
- `Templates` (`src/Template/TemplateRenderer.php`): resolving a template
  name, reading it, and substituting `{$name}` placeholders in one PHP `strtr`
  pass. `Strtr` is the longest-key-first, left-to-right, no-rescan semantics
  of `strtr(string, array)`. It is related to an independent reference,
  `Expand`, over a template read as literal text and placeholders.
- `EntrypointModifier` (`src/Codeception/Extension/ApplicationEntrypointModifier.php`):
  `_initialize`, the update decision, and the rename-then-dump swap. It also
  models `beforeSuite` as a fold of the filesystem over the entrypoint list.
- `PathHelper` (`src/Helper/PathHelper.php`): the generate-until-free search
  for a temporary file name.

Modelling choices:

- The filesystem is a value `FileSystem(files, unreadable)`: a map from path
  to content, plus the paths whose content cannot be read. A PHP exception
  does not roll back earlier file operations, so fallible operations return an
  `Outcome(fs, result)` that carries the filesystem they leave behind.
- The source decides by comparing SHA-1 digests (`sha1_file` against `sha1`).
  The model compares contents instead, which assumes there are no SHA-1
  collisions. `sha1_file` of a missing or unreadable main file is `false`, so
  such a file never matches.
- Symfony's `Path::join` and `isAbsolutePath` are arbitrary functions held in
  `PathOps`, so every property holds whatever they compute. PHP's
  `DIRECTORY_SEPARATOR` is also kept in `PathOps`.
- Codeception's project directory and the Composer vendor directory are
  parameters (`Environment`). So is the renderer's template directory.
- The decision follows the code: the *main* entrypoint is compared with a
  fresh render, not the app entrypoint. `ProcessSettles` and
  `BeforeSuiteIdempotent` show this is consistent. After a successful swap the
  main path holds the proxy, so the next run does nothing.
- `tests/src/ValueObject/EntrypointTest.php:125-182` expects `fromConfig` to
  store full paths, and the getters to return bare names. The code stores bare
  names and joins them in the getters (`src/ValueObject/Entrypoint.php:59-63,105-116`),
  and `tests/src/Codeception/Extension/ApplicationEntrypointModifierTest.php:80-84`
  agrees with the code. The model follows the code (`GettersJoinStoredNames`).

## Model

| member | source | states |
|---|---|---|
| FileSystems.FileSystem.Rename | src/Codeception/Extension/ApplicationEntrypointModifier.php:127 | moving main over app with overwrite fails exactly when the origin is missing; otherwise the target holds the origin's content and readability, the origin is gone unless it is the target, and every other path is unchanged |
| FileSystems.FileSystem.DumpFile | src/Template/TemplateRenderer.php:99 | the target afterwards holds exactly the written content and is readable; only the target can be added and every other path is unchanged |
| Entrypoints.ParseConfig | src/ValueObject/Entrypoint.php:76-92 | succeeds exactly when the key holds a non-empty string, or is absent and has a default; the result is the configured string unchanged or the default, and is never empty; failures name the key, and the error is ConfigIsEmpty exactly when the value is `""` |
| Entrypoints.FromConfig | src/ValueObject/Entrypoint.php:57-64 | keys are checked in the order web-dir, main-entrypoint, app-entrypoint; the first failure is the one reported and no entrypoint is built; on success the web directory is join(base, web-dir) and the names are the parsed ones |
| Entrypoints.FromConfigNamesNonEmpty | src/ValueObject/Entrypoint.php:84-91 | a built entrypoint never stores an empty main or app name |
| Entrypoints.DefaultsApply | src/ValueObject/Entrypoint.php:59-80 | with only web-dir configured, main is `index.php` and app is `app.php`, and the paths are those names joined onto the web directory |
| Entrypoints.GettersJoinStoredNames | src/ValueObject/Entrypoint.php:97-116 | the web directory getter returns join(base, web-dir) unchanged; the main and app getters join the configured or default bare names onto it |
| Entrypoints.MissingWebDirIsInvalid | src/ValueObject/Entrypoint.php:78-86 | a config without web-dir fails with ConfigIsInvalid("web-dir"), since web-dir has no default |
| Entrypoints.NonStringIsInvalid | src/ValueObject/Entrypoint.php:82-86 | a present non-string value (null included) is ConfigIsInvalid for that key even when the key has a default, once the earlier keys are valid |
| Entrypoints.EmptyStringIsEmpty | src/ValueObject/Entrypoint.php:87-89 | a present `""` is ConfigIsEmpty for that key, never ConfigIsInvalid, once the earlier keys are valid |
| Templates.PlaceholderVariables | src/Template/TemplateRenderer.php:109-118 | every variable k yields exactly the pair `{$k}` => its value, and every pair in the table comes from some variable |
| Templates.StrtrMatchesReference | src/Template/TemplateRenderer.php:83 | for any template made of inert text and placeholders, the single strtr pass equals the reference expansion: supplied placeholders become their values, unknown ones and all other text stay verbatim, values are not rescanned |
| Templates.StrtrReplacesPlaceholder | src/Template/TemplateRenderer.php:83 | a supplied placeholder at the scan position is replaced by exactly its value and scanning resumes right after it |
| Templates.StrtrKeepsUnknownPlaceholder | src/Template/TemplateRenderer.php:83 | a `{$x}` token whose name is not supplied is copied through unchanged |
| Templates.LongestKeyAtSpec | src/Template/TemplateRenderer.php:83 | the key strtr replaces at a position is the longest one there: no longer prefix of the text is a key |
| Templates.StrtrInertPrefix | src/Template/TemplateRenderer.php:83 | text that cannot start a placeholder is copied through unchanged, whatever follows it |
| Templates.StrtrWithoutPairs | src/Template/TemplateRenderer.php:83 | with no replacement pairs strtr returns the text unchanged |
| Templates.SinglePass | src/Template/TemplateRenderer.php:83 | when the value of `{$k}` spells another supplied placeholder `{$k'}`, rendering `{$k}` yields `{$k'}` as written, not its value |
| Templates.Render | src/Template/TemplateRenderer.php:66-86 | a relative name resolves under the template directory and an absolute one is kept; a missing resolved path is TemplateFileIsMissing(path), an unreadable one TemplateFileIsInvalid(path); otherwise the content after one strtr pass with the placeholder table |
| Templates.RenderWithoutVariables | src/Template/TemplateRenderer.php:66-86 | with an empty variable map the rendered text is the template text |
| Templates.RenderFrame | src/Template/TemplateRenderer.php:72-83 | rendering depends on the filesystem only at the resolved template path |
| Templates.Dump | src/Template/TemplateRenderer.php:95-102 | returns exactly what render returns; on success the target holds that text and is readable and nothing else changes; on failure nothing is written |
| EntrypointModifier.Initialize | src/Codeception/Extension/ApplicationEntrypointModifier.php:81-86 | one entrypoint per configuration entry, in list order, each resolved against the project directory; otherwise the error of the first invalid entry, all earlier ones being valid |
| EntrypointModifier.RTrim | src/Codeception/Extension/ApplicationEntrypointModifier.php:118 | the result is a prefix of the input that does not end with the separator, and everything removed was separators |
| EntrypointModifier.TemplateVariables | src/Codeception/Extension/ApplicationEntrypointModifier.php:116-121 | the variables are exactly projectDir (trailing separators stripped), vendorDir and appEntrypoint (the app path), and their names are usable placeholders |
| EntrypointModifier.NeedsUpdate | src/Codeception/Extension/ApplicationEntrypointModifier.php:105-112 | an absent app path needs an update; otherwise no update exactly when the main file holds the fresh render; a render failure is raised only when the app path exists |
| EntrypointModifier.CreateEntrypoint | src/Codeception/Extension/ApplicationEntrypointModifier.php:114-130 | a missing main file fails the rename and changes nothing; otherwise main is moved over app first and the proxy is rendered from the moved state; a failed render writes nothing, so main stays moved away and absent; a successful one is written to main, and app then holds the former main content unless main and app are the same path, in which case the rename does nothing and the proxy overwrites the original; app is the only path that can be added, and no other path changes |
| EntrypointModifier.ProcessEntrypoint | src/Codeception/Extension/ApplicationEntrypointModifier.php:90-93 | reports no swap exactly when the entrypoint is already settled; when the entrypoint needs no update, or its check raises, nothing changes; a swap moves the old main to app and leaves the proxy in main; only the entrypoint's two paths change |
| EntrypointModifier.BeforeSuite | src/Codeception/Extension/ApplicationEntrypointModifier.php:88-95 | no path outside the configured entrypoints' main and app paths is modified, whether the run succeeds or aborts |
| EntrypointModifier.ProcessChangesOnlyOwn | src/Codeception/Extension/ApplicationEntrypointModifier.php:90-93 | one iteration changes only the main and app paths of an entrypoint that needs an update, and nothing otherwise |
| EntrypointModifier.BeforeSuiteChangesOnlyUpdated | src/Codeception/Extension/ApplicationEntrypointModifier.php:88-95 | a run changes only the main and app paths of the entrypoints found in need of an update at their turn, up to the first exception; settled entrypoints keep their files |
| EntrypointModifier.ProcessSettles | src/Codeception/Extension/ApplicationEntrypointModifier.php:111 | when the template is neither entrypoint file, a successful iteration leaves app present and main holding the fresh render, so comparing main with the render is consistent |
| EntrypointModifier.AllSettledIsNoOp | src/Codeception/Extension/ApplicationEntrypointModifier.php:88-95 | when every entrypoint is settled, beforeSuite succeeds without touching any file |
| EntrypointModifier.RunSettlesAll | src/Codeception/Extension/ApplicationEntrypointModifier.php:88-95 | after a successful run over separated entrypoints, every entrypoint is settled |
| EntrypointModifier.BeforeSuiteIdempotent | src/Codeception/Extension/ApplicationEntrypointModifier.php:88-112 | a second beforeSuite right after a successful one modifies no file |
| EntrypointModifier.FirstRunCreatesBothFiles | src/Codeception/Extension/ApplicationEntrypointModifier.php:105-130 | with the main file present, no app file yet and a readable template, the run succeeds, adds exactly the app path, moves the original main content there and leaves the rendered proxy in main |
| EntrypointModifier.ChangedMainIsSwappedAgain | src/Codeception/Extension/ApplicationEntrypointModifier.php:111-129 | after main is overwritten with anything but the proxy, the next run changes the files again: the altered content moves to app and the proxy returns to main |
| EntrypointModifier.MissingTemplateLeavesMainMoved | src/Codeception/Extension/ApplicationEntrypointModifier.php:127-129 | with no app file and no template, the run fails with TemplateFileIsMissing after the original main has already been moved to app, leaving no main file |
| PathHelper.FindUniqueTemporaryFilename | src/Helper/PathHelper.php:51-64 | returns the bare name of the first candidate whose joined path does not exist; it starts with `_codeception_helper_include_`, ends with `.ext` when an extension is given and has no suffix (and no dot, for dot-free identifiers) when none is |
| PathHelper.FirstAbsent | src/Helper/PathHelper.php:59-61 | the do-while stops at the first candidate path that does not exist, every earlier one existing |
| PathHelper.CandidateShape | src/Helper/PathHelper.php:53-60 | every candidate starts with the prefix and, given an extension, ends with `.ext`; without one it is the prefix followed by the identifier and has no dot when the identifier has none |

## Left out

- Real I/O: file modification times, directories, permissions, and write failures of `dumpFile` are not modelled. A write always succeeds, and the only failing filesystem operation is a rename whose source is missing.
- `sha1` / `sha1_file`: replaced by content equality, assuming no SHA-1 collisions.
- Symfony `Path::join`, `Filesystem::isAbsolutePath` and `Configuration::projectDir()`: left uninterpreted or taken as parameters.
- The default template directory computed in the `TemplateRenderer` constructor (`dirname(__DIR__, 2).'/templates'`): the directory is a parameter of `Renderer`.
- `PathHelper::getVendorDirectory` (reflection on Composer's `InstalledVersions`) and its `VendorDirectoryCannotBeDetermined` error: the vendor directory is a parameter.
- PathHelper.FindUniqueTemporaryFilename: `uniqid` is replaced by a finite list of identifiers that must contain a free one. The real loop draws identifiers without bound and terminates only if `uniqid` eventually yields a free name.
- EntrypointModifier.BeforeSuiteIdempotent: assumes the entrypoints are separated: the template is none of their files and a later entrypoint does not write an earlier one's main or app path. The code checks neither condition, and when they fail a second run can swap again.
- EntrypointModifier.RunSettlesAll: assumes the entrypoints are separated in the same sense. Without it a later swap can overwrite an earlier entrypoint's files and leave it unsettled.
- EntrypointModifier.FirstRunCreatesBothFiles: assumes the template is neither of the entrypoint's files. A template at the main path would be moved away by the rename before it is read.
- EntrypointModifier.ChangedMainIsSwappedAgain: assumes the template is neither of the entrypoint's files, because the proxy is rendered from the template after the main file is changed.
- Templates.StrtrMatchesReference: covers templates whose literal text never starts a placeholder, and variable names without `{` or `}`. That includes all three entrypoint variables. Overlapping or brace-containing names fall outside the reference, but `Strtr` itself models them.
- Templates.Strtr: values are strings. The code's `mixed` values are converted to strings by `strtr` before insertion. Empty keys are ignored, as in PHP 8.
- Codeception event registration and the extension's parent constructor: framework plumbing.
- Exception classes: only their kinds are kept, in `Errors.Error`. Message texts and codes are dropped.
- The browser-driver helpers (`Backend`, `AbstractBackend`): sequences of WebDriver calls outside the entrypoint swap.
- The `findTemporaryFiles` tests in `tests/src/Helper/PathHelperTest.php:74-90` test a method that `src/Helper/PathHelper.php` does not have.
- Concurrent suite runs on the same document root: the code does not coordinate them.
