/**
 An abstract local filesystem: a map from path to file content, plus the set
 of paths whose content cannot be read. Directories, permissions beyond
 readability, and modification times are not represented.
 */
module FileSystems {
  import opened Errors

  datatype FileSystem = FileSystem(files: map<string, string>, unreadable: set<string>) {

    /** `file_exists`: the path names a file, readable or not. */
    predicate Exists(path: string) {
      path in files
    }

    /** `file_get_contents`: the content, or `None` when PHP would return `false`. */
    function Read(path: string): Option<string> {
      if path in files && path !in unreadable then Some(files[path]) else None
    }

    /** True when the file at `path` can be read and holds exactly `content`. */
    predicate Holds(path: string, content: string) {
      Read(path) == Some(content)
    }

    /**
     `Filesystem::dumpFile`: afterwards `path` holds `content` and is readable;
     no other path changes.
     */
    function DumpFile(path: string, content: string): (fs: FileSystem)
      ensures fs.Holds(path, content)
      ensures fs.files.Keys == files.Keys + {path}
      ensures forall p | p != path :: SameAt(this, fs, p)
    {
      FileSystem(files[path := content], unreadable - {path})
    }

    /**
     `Filesystem::rename($origin, $target, true)`: moves the file at `origin`
     to `target`, replacing whatever `target` held. Fails when `origin` does
     not exist. Readability travels with the file.
     */
    function Rename(origin: string, target: string): (r: Result<FileSystem>)
      ensures r.Err? <==> origin !in files
      ensures r.Err? ==> r.error == CannotRename(origin, target)
      ensures r.Ok? && origin == target ==> r.value == this
      ensures r.Ok? ==> r.value.Read(target) == Read(origin)
      ensures r.Ok? ==> target in r.value.files && r.value.files[target] == files[origin]
      ensures r.Ok? && origin != target ==> origin !in r.value.files
      ensures r.Ok? ==> r.value.files.Keys == files.Keys - {origin} + {target}
      ensures r.Ok? ==> forall p | p != origin && p != target :: SameAt(this, r.value, p)
    {
      if origin !in files then
        Err(CannotRename(origin, target))
      else
        var unreadable' :=
          if origin in unreadable then unreadable - {origin} + {target} else unreadable - {target};
        Ok(FileSystem((files - {origin})[target := files[origin]], unreadable'))
    }
  }

  /** `fs` and `fs'` agree about `path`: presence, content and readability. */
  predicate SameAt(fs: FileSystem, fs': FileSystem, path: string) {
    && (path in fs.files <==> path in fs'.files)
    && (path in fs.files ==> fs.files[path] == fs'.files[path])
    && (path in fs.unreadable <==> path in fs'.unreadable)
  }

  /** Every path outside `touched` is the same in `fs` and `fs'`. */
  ghost predicate UnchangedOutside(fs: FileSystem, fs': FileSystem, touched: set<string>) {
    forall p | p !in touched :: SameAt(fs, fs', p)
  }

  /**
   The filesystem after an operation together with how the operation ended.
   A PHP exception does not undo the file operations done before it, so a
   failed operation still carries the filesystem it left behind.
   */
  datatype Outcome<+T> = Outcome(fs: FileSystem, result: Result<T>)
}
