/**
 * The part of the filesystem the commands see: file contents by path. Paths
 * are relative to the application directory (Laravel's `app_path()`).
 * Directories are implicit.
 */
module FileStore {

  type Files = map<string, string>

  /** Every file of `before` is still in `after`, with the same content. */
  predicate Keeps(before: Files, after: Files) {
    forall p :: p in before ==> p in after && after[p] == before[p]
  }

  lemma KeepsTransitive(a: Files, b: Files, c: Files)
    requires Keeps(a, b) && Keeps(b, c)
    ensures Keeps(a, c)
  {
  }

  /** `if (!File::exists($path)) File::put($path, $content)`. */
  function PutIfAbsent(fs: Files, path: string, content: string): (r: Files)
    ensures r.Keys == fs.Keys + {path}
    ensures Keeps(fs, r)
    ensures path !in fs ==> r[path] == content
  {
    if path in fs then fs else fs[path := content]
  }

  /** `File::put($path, $content)`: create or replace one file. */
  function Put(fs: Files, path: string, content: string): (r: Files)
    ensures r.Keys == fs.Keys + {path}
    ensures r[path] == content
    ensures forall p :: p in fs && p != path ==> r[p] == fs[p]
  {
    fs[path := content]
  }

  lemma PutIfAbsentIdempotent(fs: Files, path: string, content: string)
    ensures PutIfAbsent(PutIfAbsent(fs, path, content), path, content) == PutIfAbsent(fs, path, content)
  {
  }
}
