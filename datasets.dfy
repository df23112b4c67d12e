/** Choosing the datasets to read and the temporal convention of each:
    `guess_dataset_type` and `discover_datasets`, which the statistics
    engine and the plotting script define identically. */
module Datasets {
  import opened Text
  import opened Paths

  /** The four conventions of the temporal columns. */
  datatype DatasetType = Icews | Wikidata | Yago | Generic

  /** `guess_dataset_type(name)`: a case-insensitive substring test in the
      priority ICEWS, Wikidata, YAGO, with `generic` for everything else. */
  function GuessDatasetType(name: string): (t: DatasetType)
    ensures t == Icews <==> Occurs("icews", Lower(name))
    ensures t == Wikidata <==> !Occurs("icews", Lower(name)) && Occurs("wikidata", Lower(name))
    ensures t == Yago <==>
      !Occurs("icews", Lower(name)) && !Occurs("wikidata", Lower(name)) && Occurs("yago", Lower(name))
    ensures t == Generic <==>
      !Occurs("icews", Lower(name)) && !Occurs("wikidata", Lower(name)) && !Occurs("yago", Lower(name))
  {
    var lowered := Lower(name);
    if Contains(lowered, "icews") then Icews
    else if Contains(lowered, "wikidata") then Wikidata
    else if Contains(lowered, "yago") then Yago
    else Generic
  }

  /** A name mentioning two conventions takes the one of higher priority. */
  lemma GuessMixedName()
    ensures GuessDatasetType("ICEWS_wikidata") == Icews
  {
    var lowered := Lower("ICEWS_wikidata");
    assert lowered[0..5] == "icews";
    assert OccursAt("icews", lowered, 0);
  }

  /** Upper-case letters do not matter. */
  lemma GuessUpperCase()
    ensures GuessDatasetType("YAGO15k") == Yago
  {
    var lowered := Lower("YAGO15k");
    assert lowered == "yago15k";
    assert OccursAt("yago", lowered, 0);
    OccursStep(lowered, "wikidata");
    FirstCharAbsent("icews", lowered);
  }

  /** A pattern whose first character is missing from `s` does not occur in it. */
  lemma FirstCharAbsent(pat: string, s: string)
    requires pat != [] && pat[0] !in s
    ensures !Occurs(pat, s)
  {
  }

  /** The lower-cased names of the `include` list. */
  function LowerAll(names: seq<string>): (r: set<string>)
    ensures forall n :: n in r <==> exists i :: 0 <= i < |names| && Lower(names[i]) == n
  {
    set i | 0 <= i < |names| :: Lower(names[i])
  }

  /** The names whose lower-cased form is in `allowed`, in their order. */
  function KeepAllowed(names: seq<string>, allowed: set<string>): (r: seq<string>)
    ensures forall n :: n in r <==> n in names && Lower(n) in allowed
    ensures SortedStrings(names) ==> SortedStrings(r)
    ensures Distinct(names) ==> Distinct(r)
  {
    if names == [] then []
    else
      var rest := KeepAllowed(names[1..], allowed);
      assert forall j :: 0 <= j < |rest| ==> rest[j] in names[1..];
      if Lower(names[0]) in allowed then [names[0]] + rest else rest
  }

  /** `discover_datasets(base, include)`: the sub-directories of `base`,
      ascending, restricted, when `include` is not empty, to the names whose
      lower-cased form equals a lower-cased `include` entry. */
  function DiscoverDatasets(base: map<string, Node>, wanted: seq<string>): (r: seq<string>)
    ensures SortedStrings(r) && Distinct(r)
    ensures forall n :: n in r <==>
      n in base && base[n].Dir? && (wanted == [] || exists i :: 0 <= i < |wanted| && Lower(wanted[i]) == Lower(n))
  {
    var candidates := SortedDirNames(base);
    if wanted == [] then candidates else KeepAllowed(candidates, LowerAll(wanted))
  }

  /** The selection depends on the `include` list only through its
      lower-cased entries: order, repetition and case do not matter. */
  lemma DiscoverDatasetsIncludeOrder(base: map<string, Node>, a: seq<string>, b: seq<string>)
    requires a != [] && b != []
    requires LowerAll(a) == LowerAll(b)
    ensures DiscoverDatasets(base, a) == DiscoverDatasets(base, b)
  {
  }
}
