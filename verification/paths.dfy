/**
 The path primitives the core borrows from the Symfony Filesystem component.
 Their algorithms are not part of this model: `join` and `isAbsolute` are
 arbitrary total functions supplied by the caller, so every property proved
 here holds whatever they compute.
 */
module Paths {

  /** `Path::join`, `Filesystem::isAbsolutePath` and PHP's `DIRECTORY_SEPARATOR`. */
  datatype PathOps = PathOps(
    join: (string, string) -> string,
    isAbsolute: string -> bool,
    separator: char
  )
}
