/**
 * pathlib's split of a file name into stem and suffix: the suffix starts at
 * the last '.', unless that dot is the first or the last character of the
 * name, in which case there is no suffix and the stem is the whole name.
 */
module PathNames {

  /** The index of the last '.' in `name`, or -1 when there is none. */
  function LastDot(name: string): (i: int)
    ensures -1 <= i < |name|
    ensures i >= 0 ==> name[i] == '.'
    ensures forall j :: i < j < |name| ==> name[j] != '.'
  {
    if name == [] then -1
    else if name[|name| - 1] == '.' then |name| - 1
    else LastDot(name[..|name| - 1])
  }

  predicate HasSuffix(name: string)
  {
    var i := LastDot(name);
    0 < i < |name| - 1
  }

  /** Path(name).suffix */
  function Suffix(name: string): (r: string)
    ensures r == [] || (|r| >= 2 && r[0] == '.' && '.' !in r[1..])
  {
    if HasSuffix(name) then name[LastDot(name)..] else []
  }

  /** Path(name).stem: what is left of the name once the suffix is cut off. */
  function Stem(name: string): (r: string)
    ensures r + Suffix(name) == name
    ensures |r| > 0 <== |name| > 0
  {
    if HasSuffix(name) then name[..LastDot(name)] else name
  }

  /** A name built from a dot-free stem and a suffix splits back into the two. */
  lemma StemSuffixOfJoin(stem: string, suffix: string)
    requires |stem| > 0 && '.' !in stem
    requires suffix == [] || (|suffix| >= 2 && suffix[0] == '.' && '.' !in suffix[1..])
    ensures Stem(stem + suffix) == stem && Suffix(stem + suffix) == suffix
  {
    var name := stem + suffix;
    if suffix == [] {
      assert name == stem;
      assert LastDot(name) == -1;
    } else {
      assert name[|stem|] == '.';
      assert LastDot(name) == |stem|;
    }
  }
}
