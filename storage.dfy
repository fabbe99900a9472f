/**
 * The part of the operating system the service touches: the set of paths that
 * currently exist. `os.path.exists(p)` is `p in files`, `os.unlink(p)` is
 * `files - {p}`, writing a file is `files + {p}` and `os.rename(a, b)` is
 * `files - {a} + {b}`.
 */
module Storage {
  type Path = string
  type Files = set<Path>
}
