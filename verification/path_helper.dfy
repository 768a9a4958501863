/**
 The temporary file name search of `PathHelper`. PHP's `uniqid` is replaced
 by the sequence of identifiers it would produce, one per loop iteration.
 */
module PathHelper {
  import opened Errors
  import opened Paths
  import opened FileSystems

  const TempFilePrefix: string := "_codeception_helper_include_"

  /** `.ext` for an extension, nothing when none is given. */
  function Suffix(extension: Option<string>): string {
    match extension
    case Some(e) => "." + e
    case None => ""
  }

  /** The name tried for the identifier `id`: prefix, identifier, suffix. */
  function Candidate(id: string, extension: Option<string>): string {
    TempFilePrefix + id + Suffix(extension)
  }

  /** Whether the candidate for `id` is already taken inside `directory`. */
  predicate Taken(paths: PathOps, fs: FileSystem, directory: string, id: string, extension: Option<string>) {
    fs.Exists(paths.join(directory, Candidate(id, extension)))
  }

  /**
   `findUniqueTemporaryFilename`: tries the identifiers in order and returns
   the first bare file name that does not exist in `directory`. The real
   loop draws identifiers until one is free; here the caller guarantees
   that one of the given identifiers is free.
   */
  method FindUniqueTemporaryFilename(paths: PathOps, fs: FileSystem, directory: string,
                                     extension: Option<string>, ids: seq<string>)
    returns (name: string)
    requires exists k | 0 <= k < |ids| :: !Taken(paths, fs, directory, ids[k], extension)
    ensures !fs.Exists(paths.join(directory, name))
    ensures |name| >= |TempFilePrefix| && name[..|TempFilePrefix|] == TempFilePrefix
    ensures extension.Some? ==> |name| > |extension.value| && name[|name| - |extension.value| - 1..] == "." + extension.value
    ensures exists k | 0 <= k < |ids| ::
              && name == Candidate(ids[k], extension)
              && forall j | 0 <= j < k :: Taken(paths, fs, directory, ids[j], extension)
    ensures extension.None? ==> exists k | 0 <= k < |ids| :: name == TempFilePrefix + ids[k]
    ensures extension.None? && (forall k | 0 <= k < |ids| :: '.' !in ids[k]) ==> '.' !in name
  {
    var candidates := seq(|ids|, k requires 0 <= k < |ids| => paths.join(directory, Candidate(ids[k], extension)));
    ghost var free :| 0 <= free < |ids| && !Taken(paths, fs, directory, ids[free], extension);
    assert !fs.Exists(candidates[free]);
    var i := FirstAbsent(fs, candidates);
    name := Candidate(ids[i], extension);
    forall j | 0 <= j < i
      ensures Taken(paths, fs, directory, ids[j], extension)
    {
      assert fs.Exists(candidates[j]);
    }
    assert !Taken(paths, fs, directory, ids[i], extension) by {
      assert candidates[i] == paths.join(directory, name);
    }
    FirstFree(paths, fs, directory, extension, ids, i, name);
  }

  /** The loop of `findUniqueTemporaryFilename`: the index of the first path in `candidates` that does not exist. */
  method FirstAbsent(fs: FileSystem, candidates: seq<string>) returns (i: nat)
    requires exists k | 0 <= k < |candidates| :: !fs.Exists(candidates[k])
    ensures i < |candidates| && !fs.Exists(candidates[i])
    ensures forall j | 0 <= j < i :: fs.Exists(candidates[j])
  {
    ghost var free :| 0 <= free < |candidates| && !fs.Exists(candidates[free]);
    i := 0;
    while fs.Exists(candidates[i])
      invariant i <= free
      invariant forall j | 0 <= j < i :: fs.Exists(candidates[j])
      decreases free - i
    {
      i := i + 1;
    }
  }

  /**
   Every candidate starts with the prefix and ends with the suffix; without
   an extension it is the prefix and the identifier alone, and it has no dot
   when the identifier has none.
   */
  lemma CandidateShape(id: string, extension: Option<string>)
    ensures var c := Candidate(id, extension);
            && |c| >= |TempFilePrefix| && c[..|TempFilePrefix|] == TempFilePrefix
            && (extension.Some? ==> |c| > |extension.value| && c[|c| - |extension.value| - 1..] == "." + extension.value)
            && (extension.None? ==> c == TempFilePrefix + id)
            && (extension.None? && '.' !in id ==> '.' !in c)
  {
    var c := Candidate(id, extension);
    assert c[..|TempFilePrefix|] == TempFilePrefix;
    if extension.Some? {
      assert c[|c| - |extension.value| - 1..] == "." + extension.value;
    } else {
      assert c == TempFilePrefix + id;
      assert forall n | 0 <= n < |TempFilePrefix| :: TempFilePrefix[n] != '.';
    }
  }

  /**
   The candidate at the first index whose name is free is the one the search
   returns: it is free, every earlier identifier is taken, and it has the
   shape of every candidate.
   */
  lemma FirstFree(paths: PathOps, fs: FileSystem, directory: string,
                  extension: Option<string>, ids: seq<string>, i: nat, name: string)
    requires i < |ids| && name == Candidate(ids[i], extension)
    requires forall j | 0 <= j < i :: Taken(paths, fs, directory, ids[j], extension)
    requires !Taken(paths, fs, directory, ids[i], extension)
    ensures !fs.Exists(paths.join(directory, name))
    ensures |name| >= |TempFilePrefix| && name[..|TempFilePrefix|] == TempFilePrefix
    ensures extension.Some? ==> |name| > |extension.value| && name[|name| - |extension.value| - 1..] == "." + extension.value
    ensures exists k | 0 <= k < |ids| ::
              && name == Candidate(ids[k], extension)
              && forall j | 0 <= j < k :: Taken(paths, fs, directory, ids[j], extension)
    ensures extension.None? ==> exists k | 0 <= k < |ids| :: name == TempFilePrefix + ids[k]
    ensures extension.None? && (forall k | 0 <= k < |ids| :: '.' !in ids[k]) ==> '.' !in name
  {
    CandidateShape(ids[i], extension);
  }
}
