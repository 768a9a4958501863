/**
 The template renderer: resolves a template file, reads it, and substitutes
 `{$name}` placeholders in one `strtr` pass.
 */
module Templates {
  import opened Errors
  import opened Paths
  import opened FileSystems

  /** The token a variable `name` is written as inside a template. */
  function Placeholder(name: string): (p: string)
    ensures |p| == |name| + 3
    ensures p[0] == '{' && p[1] == '$' && p[|p| - 1] == '}'
    ensures p[2..|p| - 1] == name
  {
    "{$" + name + "}"
  }

  lemma PlaceholderInjective(a: string, b: string)
    requires Placeholder(a) == Placeholder(b)
    ensures a == b
  {
    assert a == Placeholder(a)[2..|a| + 2];
  }

  /** Variable names that can be told apart inside a template: no closing brace. */
  predicate ValidNames(vars: map<string, string>) {
    forall k | k in vars :: '}' !in k
  }

  /**
   `buildPlaceholderVariables`: each variable `k` becomes the replacement pair
   `{$k}` => its value, and nothing else is in the table.
   */
  function PlaceholderVariables(vars: map<string, string>): (pairs: map<string, string>)
    ensures forall k | k in vars :: Placeholder(k) in pairs && pairs[Placeholder(k)] == vars[k]
    ensures forall key | key in pairs :: exists k | k in vars :: key == Placeholder(k)
  {
    forall a, b | a in vars && b in vars && Placeholder(a) == Placeholder(b)
      ensures a == b
    {
      PlaceholderInjective(a, b);
    }
    map k | k in vars :: Placeholder(k) := vars[k]
  }

  /**
   The length of the longest key of `pairs` that is a non-empty prefix of
   `text` and at most `n` long, or 0 when there is none.
   */
  function LongestKeyAt(text: string, pairs: map<string, string>, n: nat): (m: nat)
    requires n <= |text|
    ensures m <= n
    ensures m > 0 ==> text[..m] in pairs
  {
    if n == 0 then 0
    else if text[..n] in pairs then n
    else LongestKeyAt(text, pairs, n - 1)
  }

  /** No key longer than the one `LongestKeyAt` finds, and at most `n` long, is a prefix of `text`. */
  lemma {:induction false} LongestKeyAtSpec(text: string, pairs: map<string, string>, n: nat)
    requires n <= |text|
    ensures forall j | LongestKeyAt(text, pairs, n) < j <= n :: text[..j] !in pairs
    decreases n
  {
    if n > 0 && text[..n] !in pairs {
      LongestKeyAtSpec(text, pairs, n - 1);
    }
  }

  /**
   PHP's `strtr($text, $pairs)`: scanning left to right, the longest key that
   starts at the current position is replaced by its value and scanning
   resumes after it; replaced text is never scanned again. Empty keys never
   match.
   */
  function Strtr(text: string, pairs: map<string, string>): string
    decreases |text|
  {
    if text == [] then []
    else
      var m := LongestKeyAt(text, pairs, |text|);
      if m == 0 then [text[0]] + Strtr(text[1..], pairs)
      else pairs[text[..m]] + Strtr(text[m..], pairs)
  }

  /** With no replacement pairs `strtr` leaves the text alone. */
  lemma {:induction false} StrtrWithoutPairs(text: string)
    ensures Strtr(text, map[]) == text
    decreases |text|
  {
    if text != [] {
      StrtrWithoutPairs(text[1..]);
    }
  }

  /** Every key starts with the placeholder opener `{$`. */
  predicate PlaceholderKeys(pairs: map<string, string>) {
    forall key | key in pairs :: |key| >= 2 && key[0] == '{' && key[1] == '$'
  }

  /**
   Template text that cannot begin a placeholder anywhere: every `{` in it is
   followed, inside the same text, by something other than `$`.
   */
  predicate Inert(s: string) {
    s == [] || ((s[0] == '{' ==> |s| > 1 && s[1] != '$') && Inert(s[1..]))
  }

  /** Text without any `{` is inert. */
  lemma {:induction false} BraceFreeIsInert(s: string)
    requires '{' !in s
    ensures Inert(s)
    decreases |s|
  {
    if s != [] {
      assert s[0] in s;
      assert forall c | c in s[1..] :: c in s;
      BraceFreeIsInert(s[1..]);
    }
  }

  /** Unfolding `strtr` one step where no key starts. */
  lemma StrtrNoMatch(text: string, pairs: map<string, string>)
    requires text != []
    requires LongestKeyAt(text, pairs, |text|) == 0
    ensures Strtr(text, pairs) == [text[0]] + Strtr(text[1..], pairs)
  {
  }

  /** Unfolding `strtr` one step where the longest key has length `m`. */
  lemma StrtrMatch(text: string, pairs: map<string, string>, m: nat)
    requires 0 < m <= |text|
    requires LongestKeyAt(text, pairs, |text|) == m
    ensures Strtr(text, pairs) == pairs[text[..m]] + Strtr(text[m..], pairs)
  {
  }

  /** No placeholder key starts at a position holding a character other than `{`, or `{` not followed by `$`. */
  lemma NoKeyAt(text: string, pairs: map<string, string>)
    requires PlaceholderKeys(pairs)
    requires text != []
    requires text[0] != '{' || (|text| > 1 && text[1] != '$')
    ensures LongestKeyAt(text, pairs, |text|) == 0
  {
    LongestKeyAtSpec(text, pairs, |text|);
  }

  /** Inert text passes through `strtr` unchanged, whatever follows it. */
  lemma {:induction false} StrtrInertPrefix(s: string, t: string, pairs: map<string, string>)
    requires PlaceholderKeys(pairs)
    requires Inert(s)
    ensures Strtr(s + t, pairs) == s + Strtr(t, pairs)
    decreases |s|
  {
    if s != [] {
      var text := s + t;
      InertFront(s, t);
      NoKeyAt(text, pairs);
      StrtrNoMatch(text, pairs);
      StrtrInertPrefix(s[1..], t, pairs);
      ConcatFront(s, Strtr(t, pairs));
    } else {
      assert s + t == t;
    }
  }

  /** The sequence facts one step of `StrtrInertPrefix` needs, kept apart from `strtr` itself. */
  lemma InertFront(s: string, t: string)
    requires s != [] && Inert(s)
    ensures (s + t)[0] == s[0]
    ensures (s + t)[1..] == s[1..] + t
    ensures (s + t)[0] != '{' || (|s + t| > 1 && (s + t)[1] != '$')
    ensures Inert(s[1..])
  {
    ConcatFront(s, t);
  }

  lemma ConcatFront(s: string, t: string)
    requires s != []
    ensures (s + t)[0] == s[0]
    ensures (s + t)[1..] == s[1..] + t
    ensures |s| > 1 ==> (s + t)[1] == s[1]
    ensures [s[0]] + (s[1..] + t) == s + t
  {
  }

  lemma ConcatAssoc(a: string, b: string, c: string)
    ensures a + (b + c) == a + b + c
  {
  }

  /**
   Two placeholders over names without `}` can only be prefix-related by
   being the same placeholder.
   */
  lemma PlaceholderPrefixUnique(k: string, k': string, t: string)
    requires '}' !in k && '}' !in k'
    requires |Placeholder(k')| <= |Placeholder(k) + t|
    requires (Placeholder(k) + t)[..|Placeholder(k')|] == Placeholder(k')
    ensures k == k'
  {
    var text := Placeholder(k) + t;
    var p' := Placeholder(k');
    assert text[|k'| + 2] == p'[|k'| + 2] == '}';
    assert |k'| >= |k|;
    assert text[|k| + 2] == '}';
    assert |k'| <= |k|;
    assert k == text[2..|k| + 2] == p'[2..|k'| + 2] == k';
  }

  /** A supplied placeholder at the front is replaced by exactly its value. */
  lemma StrtrReplacesPlaceholder(k: string, t: string, vars: map<string, string>)
    requires ValidNames(vars)
    requires k in vars
    ensures Strtr(Placeholder(k) + t, PlaceholderVariables(vars))
         == vars[k] + Strtr(t, PlaceholderVariables(vars))
  {
    var pairs := PlaceholderVariables(vars);
    var text := Placeholder(k) + t;
    var n := |Placeholder(k)|;
    var m := LongestKeyAt(text, pairs, |text|);
    LongestKeyAtSpec(text, pairs, |text|);
    assert text[..n] == Placeholder(k);
    if m > n {
      var k' :| k' in vars && text[..m] == Placeholder(k');
      PlaceholderPrefixUnique(k, k', t);
    }
    assert m == n;
    StrtrMatch(text, pairs, m);
    assert text[..m] == Placeholder(k) && text[m..] == t;
  }

  /** No key of the table starts a placeholder whose name is not supplied. */
  lemma UnknownPlaceholderHasNoKey(k: string, t: string, vars: map<string, string>)
    requires ValidNames(vars)
    requires k !in vars && '}' !in k
    ensures LongestKeyAt(Placeholder(k) + t, PlaceholderVariables(vars), |Placeholder(k) + t|) == 0
  {
    var pairs := PlaceholderVariables(vars);
    var text := Placeholder(k) + t;
    var m := LongestKeyAt(text, pairs, |text|);
    LongestKeyAtSpec(text, pairs, |text|);
    if m > 0 {
      var k' :| k' in vars && text[..m] == Placeholder(k');
      PlaceholderPrefixUnique(k, k', t);
      assert false;
    }
  }

  /**
   A placeholder whose name is not supplied is kept verbatim (the name may
   contain neither brace).
   */
  lemma StrtrKeepsUnknownPlaceholder(k: string, t: string, vars: map<string, string>)
    requires ValidNames(vars)
    requires k !in vars && '{' !in k && '}' !in k
    ensures Strtr(Placeholder(k) + t, PlaceholderVariables(vars))
         == Placeholder(k) + Strtr(t, PlaceholderVariables(vars))
  {
    var rest := "$" + k + "}";
    PlaceholderSplit(k, t, rest);
    UnknownPlaceholderHasNoKey(k, t, vars);
    PlaceholderVariablesKeys(vars);
    StrtrSkipsCharThenInert(Placeholder(k) + t, rest, t, PlaceholderVariables(vars));
  }

  /** The placeholder table only has keys starting with `{$`. */
  lemma PlaceholderVariablesKeys(vars: map<string, string>)
    ensures PlaceholderKeys(PlaceholderVariables(vars))
  {
  }

  /**
   Where no key starts at the front and the following text is inert, `strtr`
   copies the first character and the inert text.
   */
  lemma StrtrSkipsCharThenInert(text: string, rest: string, t: string, pairs: map<string, string>)
    requires PlaceholderKeys(pairs)
    requires text != [] && text[1..] == rest + t
    requires LongestKeyAt(text, pairs, |text|) == 0
    requires Inert(rest)
    ensures Strtr(text, pairs) == [text[0]] + rest + Strtr(t, pairs)
  {
    StrtrNoMatch(text, pairs);
    StrtrInertPrefix(rest, t, pairs);
    ConcatAssoc([text[0]], rest, Strtr(t, pairs));
  }

  /** The sequence facts behind `StrtrKeepsUnknownPlaceholder`, kept apart from `strtr` itself. */
  lemma PlaceholderSplit(k: string, t: string, rest: string)
    requires '{' !in k
    requires rest == "$" + k + "}"
    ensures Placeholder(k) == ['{'] + rest
    ensures (Placeholder(k) + t)[0] == '{'
    ensures (Placeholder(k) + t)[1..] == rest + t
    ensures Inert(rest)
  {
    assert '{' !in rest;
    BraceFreeIsInert(rest);
  }

  /** A template read as literal text and placeholders. */
  datatype Token = Text(s: string) | Var(name: string)

  /** The template text a token sequence spells. */
  function Compose(tokens: seq<Token>): string {
    if tokens == [] then []
    else
      match tokens[0]
      case Text(s) => s + Compose(tokens[1..])
      case Var(name) => Placeholder(name) + Compose(tokens[1..])
  }

  /**
   The reference meaning of rendering: literal text is copied, a supplied
   variable is replaced by its value, an unknown one is left as written.
   */
  function Expand(tokens: seq<Token>, vars: map<string, string>): string {
    if tokens == [] then []
    else
      match tokens[0]
      case Text(s) => s + Expand(tokens[1..], vars)
      case Var(name) =>
        (if name in vars then vars[name] else Placeholder(name)) + Expand(tokens[1..], vars)
  }

  /** Literal parts are inert and placeholder names contain no brace. */
  predicate WellFormed(tokens: seq<Token>) {
    forall i | 0 <= i < |tokens| ::
      match tokens[i]
      case Text(s) => Inert(s)
      case Var(name) => '{' !in name && '}' !in name
  }

  /**
   `strtr` with the placeholder table computes the reference expansion: every
   supplied placeholder is replaced, everything else is left verbatim, and
   inserted values are not scanned again.
   */
  lemma {:induction false} StrtrMatchesReference(tokens: seq<Token>, vars: map<string, string>)
    requires ValidNames(vars)
    requires WellFormed(tokens)
    ensures Strtr(Compose(tokens), PlaceholderVariables(vars)) == Expand(tokens, vars)
    decreases |tokens|
  {
    if tokens != [] {
      var pairs := PlaceholderVariables(vars);
      assert WellFormed(tokens[1..]) by {
        forall i | 0 <= i < |tokens[1..]|
          ensures match tokens[1..][i]
                  case Text(s) => Inert(s)
                  case Var(name) => '{' !in name && '}' !in name
        {
          assert tokens[1..][i] == tokens[i + 1];
        }
      }
      StrtrMatchesReference(tokens[1..], vars);
      match tokens[0]
      case Text(s) =>
        assert Inert(s) by { assert tokens[0] == Text(s); }
        StrtrInertPrefix(s, Compose(tokens[1..]), pairs);
      case Var(name) =>
        if name in vars {
          StrtrReplacesPlaceholder(name, Compose(tokens[1..]), vars);
        } else {
          StrtrKeepsUnknownPlaceholder(name, Compose(tokens[1..]), vars);
        }
    }
  }

  /**
   Inserted values are not rescanned: a value that itself spells a supplied
   placeholder comes out as written.
   */
  lemma SinglePass(k: string, k': string, vars: map<string, string>)
    requires ValidNames(vars)
    requires k in vars && k' in vars && vars[k] == Placeholder(k')
    ensures Strtr(Placeholder(k), PlaceholderVariables(vars)) == Placeholder(k')
  {
    StrtrReplacesPlaceholder(k, "", vars);
    assert Placeholder(k) + "" == Placeholder(k);
  }

  /** The renderer's template directory; relative template names resolve against it. */
  datatype Renderer = Renderer(templateDirectory: string)

  /** Where `render` looks for `templateFile`. */
  function ResolveTemplate(paths: PathOps, renderer: Renderer, templateFile: string): string {
    if paths.isAbsolute(templateFile) then templateFile
    else paths.join(renderer.templateDirectory, templateFile)
  }

  /**
   `TemplateRenderer::render`: a missing template and an unreadable one fail
   with different errors, both carrying the resolved path; otherwise the
   template content goes through one `strtr` pass with the placeholder table.
   */
  function Render(paths: PathOps, renderer: Renderer, fs: FileSystem, templateFile: string,
                  vars: map<string, string>): (r: Result<string>)
    ensures var path := ResolveTemplate(paths, renderer, templateFile);
            && (!paths.isAbsolute(templateFile) ==> path == paths.join(renderer.templateDirectory, templateFile))
            && (paths.isAbsolute(templateFile) ==> path == templateFile)
            && (r == Err(TemplateFileIsMissing(path)) <==> !fs.Exists(path))
            && (r == Err(TemplateFileIsInvalid(path)) <==> fs.Exists(path) && fs.Read(path).None?)
            && (r.Ok? <==> fs.Read(path).Some?)
            && (r.Ok? ==> r.value == Strtr(fs.files[path], PlaceholderVariables(vars)))
  {
    var path := ResolveTemplate(paths, renderer, templateFile);
    if !fs.Exists(path) then
      Err(TemplateFileIsMissing(path))
    else
      match fs.Read(path)
      case None => Err(TemplateFileIsInvalid(path))
      case Some(template) => Ok(Strtr(template, PlaceholderVariables(vars)))
  }

  /**
   `TemplateRenderer::dump`: renders, writes the result to `targetFile` and
   returns it. A failed render writes nothing.
   */
  function Dump(paths: PathOps, renderer: Renderer, fs: FileSystem, templateFile: string,
                targetFile: string, vars: map<string, string>): (o: Outcome<string>)
    ensures o.result == Render(paths, renderer, fs, templateFile, vars)
    ensures o.result.Err? ==> o.fs == fs
    ensures o.result.Ok? ==> o.fs.Holds(targetFile, o.result.value)
    ensures o.result.Ok? ==> o.fs.files.Keys == fs.files.Keys + {targetFile}
    ensures UnchangedOutside(fs, o.fs, {targetFile})
  {
    match Render(paths, renderer, fs, templateFile, vars)
    case Err(e) => Outcome(fs, Err(e))
    case Ok(content) => Outcome(fs.DumpFile(targetFile, content), Ok(content))
  }

  /** Rendering reads the filesystem only at the resolved template path. */
  lemma RenderFrame(paths: PathOps, renderer: Renderer, fs: FileSystem, fs': FileSystem,
                    templateFile: string, vars: map<string, string>)
    requires SameAt(fs, fs', ResolveTemplate(paths, renderer, templateFile))
    ensures Render(paths, renderer, fs, templateFile, vars) == Render(paths, renderer, fs', templateFile, vars)
  {
  }

  /** With no variables the rendered text is the template text itself. */
  lemma RenderWithoutVariables(paths: PathOps, renderer: Renderer, fs: FileSystem, templateFile: string)
    requires fs.Read(ResolveTemplate(paths, renderer, templateFile)).Some?
    ensures Render(paths, renderer, fs, templateFile, map[])
         == Ok(fs.files[ResolveTemplate(paths, renderer, templateFile)])
  {
    assert PlaceholderVariables(map[]) == map[];
    StrtrWithoutPairs(fs.files[ResolveTemplate(paths, renderer, templateFile)]);
  }
}
