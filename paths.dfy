/**
  File paths as `pathlib.Path` presents them to the program: a directory and
  a final component, with the `stem` and `suffix` of that component.
 */
module Paths {
  import opened Wrappers
  import opened Strings

  /** A path: its parent directory and its final component (`Path.name`). */
  datatype Path = Path(dir: string, name: string)

  /** `str(path)`, with `/` as the separator. */
  function PathText(p: Path): string {
    if p.dir == "" then p.name else p.dir + "/" + p.name
  }

  /** Where `pathlib` splits a name: its last `.`, when that is neither the first nor the last character. */
  function SuffixStart(name: string): (r: Option<nat>)
    ensures r.Some? ==> 0 < r.value < |name| - 1 && name[r.value] == '.'
    ensures r.Some? ==> forall k :: r.value < k < |name| ==> name[k] != '.'
  {
    match LastIndexOf(name, '.')
    case Some(i) => if 0 < i < |name| - 1 then Some(i) else None
    case None => None
  }

  /** `Path.suffix`: from the last `.` on, or `""`. */
  function Suffix(name: string): string {
    match SuffixStart(name)
    case Some(i) => name[i..]
    case None => ""
  }

  /** `Path.stem`: the name without its suffix. */
  function Stem(name: string): string {
    match SuffixStart(name)
    case Some(i) => name[..i]
    case None => name
  }

  /** The stem and the suffix put back together give the name. */
  lemma {:induction false} StemSuffix(name: string)
    ensures Stem(name) + Suffix(name) == name
  {
  }

  /** A name made of a non-empty dot-free stem, `.`, and a non-empty dot-free extension splits there. */
  lemma {:induction false} SplitsAtExtension(stem: string, ext: string)
    requires stem != [] && ext != []
    requires '.' !in ext
    ensures Stem(stem + "." + ext) == stem
    ensures Suffix(stem + "." + ext) == "." + ext
  {
    var name := stem + "." + ext;
    var i := |stem|;
    assert name[i] == '.';
    forall k | i < k < |name| ensures name[k] != '.' {
      assert name[k] == ext[k - i - 1];
    }
    LastIndexOfIs(name, '.', i);
    assert name[..i] == stem;
    assert name[i..] == "." + ext;
  }
}
