/** File paths as the scripts use them: a directory and a base name, joined
    with `os.path.join`, split with `os.path.basename` / `os.path.dirname`,
    and with the extension `os.path.splitext` finds. */
module Paths {
  import opened Wrappers
  import opened Text

  /** An absolute, normalised path: `dir` is `os.path.dirname`, `base` is
      `os.path.basename`. Two paths name the same file exactly when they are
      equal, which is what comparing `os.path.abspath` values decides. */
  datatype Path = Path(dir: string, base: string)

  /** `os.path.join(dir, base)` for a relative `base`. */
  function Full(p: Path): (r: string)
    ensures EndsWith(r, p.base)
  {
    if p.dir == [] || EndsWith(p.dir, "/") then p.dir + p.base else p.dir + "/" + p.base
  }

  /** The position of the last '.' in `s`, if any. */
  function LastDot(s: string): (r: Option<nat>)
    ensures r.Some? ==> r.value < |s| && s[r.value] == '.'
    ensures r.Some? ==> forall k :: r.value < k < |s| ==> s[k] != '.'
    ensures r.None? ==> forall k :: 0 <= k < |s| ==> s[k] != '.'
  {
    if s == [] then None
    else if s[|s| - 1] == '.' then Some(|s| - 1)
    else LastDot(s[..|s| - 1])
  }

  /** `os.path.splitext(path)[1]` (the extension is found in the base name):
      from the last '.' on, unless every character before that '.' is a '.'
      too (so `.bashrc` has no extension). */
  function Extension(base: string): (e: string)
    ensures e == [] || (e[0] == '.' && EndsWith(base, e) && |e| < |base|)
    ensures forall k :: 1 <= k < |e| ==> e[k] != '.'
  {
    match LastDot(base)
    case None => []
    case Some(d) =>
      if forall k :: 0 <= k < d ==> base[k] == '.' then [] else base[d..]
  }
}
