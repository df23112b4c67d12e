/** The file system as the scripts see it: a directory maps entry names to
    files (their lines) and sub-directories; and the name arithmetic of
    `pathlib.PurePath` (`suffix`, `stem`, `with_suffix`). */
module Paths {
  import opened Wrappers
  import opened Text

  datatype Node = File(lines: seq<string>) | Dir(entries: map<string, Node>)

  /** The position of the last `.` of `name` (`name.rfind(".")`), or -1. */
  function LastDot(name: string): (i: int)
    ensures -1 <= i < |name|
    ensures i >= 0 ==> name[i] == '.'
    ensures forall j :: i < j < |name| ==> name[j] != '.'
  {
    if name == [] then -1
    else if name[|name| - 1] == '.' then |name| - 1
    else LastDot(name[..|name| - 1])
  }

  /** A dot that is neither the first nor the last character starts a
      suffix. */
  predicate HasSuffix(name: string)
  {
    0 < LastDot(name) < |name| - 1
  }

  /** `PurePath(name).suffix`. */
  function Suffix(name: string): string
  {
    if HasSuffix(name) then name[LastDot(name)..] else ""
  }

  /** `PurePath(name).stem`. */
  function Stem(name: string): string
  {
    if HasSuffix(name) then name[..LastDot(name)] else name
  }

  /** The stem and the suffix split the name. */
  lemma StemSuffix(name: string)
    ensures Stem(name) + Suffix(name) == name
    ensures Suffix(name) == "" || (Suffix(name)[0] == '.' && |Suffix(name)| >= 2)
    ensures Suffix(name) != "" ==> '.' !in Suffix(name)[1..]
  {
    if HasSuffix(name) {
      var i := LastDot(name);
      assert name[..i] + name[i..] == name;
      assert forall j :: 0 <= j < |name[i..][1..]| ==> name[i..][1..][j] == name[i + 1 + j];
    }
  }

  /** `Path(...).suffix == ".txt"` holds exactly for names longer than
      `.txt` that end with it; `str.endswith(".txt")` also takes the bare
      name `.txt`. */
  lemma SuffixTxt(name: string)
    ensures Suffix(name) == ".txt" <==> EndsWith(name, ".txt") && |name| > 4
  {
    if EndsWith(name, ".txt") && |name| > 4 {
      assert name[|name| - 4] == '.';
      assert forall j :: |name| - 4 < j < |name| ==> name[j] == name[|name| - 4..][j - (|name| - 4)];
      assert LastDot(name) == |name| - 4;
    }
    if Suffix(name) == ".txt" {
      StemSuffix(name);
      assert name[LastDot(name)..] == ".txt";
    }
  }

  /** `Path(name).with_suffix(suffix)`: `None` where it raises `ValueError`
      (an empty name, or a suffix that is neither empty nor a dot followed
      by something, or that holds a `/`). */
  function WithSuffix(name: string, suffix: string): (r: Option<string>)
    ensures r.Some? <==> name != "" && '/' !in suffix && (suffix == "" || (suffix[0] == '.' && suffix != "."))
    ensures r.Some? ==> r.value == Stem(name) + suffix
  {
    if '/' in suffix || (suffix != "" && suffix[0] != '.') || suffix == "." || name == "" then None
    else
      StemSuffix(name);
      Some(name[..|name| - |Suffix(name)|] + suffix)
  }

  /** `name.endswith(".txt")`, the filter of the statistics engine. */
  predicate EndsWithTxt(name: string)
  {
    EndsWith(name, ".txt")
  }

  /** `Path(name).suffix == ".txt"`, the filter of the other scripts. */
  predicate IsTxt(name: string)
  {
    Suffix(name) == ".txt"
  }

  /** The names of a directory, ascending: `sorted(os.listdir(d))`. */
  function SortedNames(entries: map<string, Node>): (r: seq<string>)
    ensures SortedStrings(r) && Distinct(r)
    ensures forall n :: n in r <==> n in entries
  {
    SortedElements(entries.Keys)
  }

  /** The names of the sub-directories, ascending. */
  function SortedDirNames(entries: map<string, Node>): (r: seq<string>)
    ensures SortedStrings(r) && Distinct(r)
    ensures forall n :: n in r <==> n in entries && entries[n].Dir?
  {
    SortedElements(set n | n in entries && entries[n].Dir?)
  }

  /** No `.txt` name among `names` is a directory. */
  predicate TxtAreFiles(entries: map<string, Node>, names: seq<string>)
  {
    forall i :: 0 <= i < |names| ==> names[i] in entries && (IsTxt(names[i]) ==> entries[names[i]].File?)
  }
}
