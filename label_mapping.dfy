/** `build_wikidata_label_mapping.py` without the network: which
    identifiers are collected from a dataset directory, how they are cut
    into request batches, how the answers are merged, how far the progress
    counter gets, and the lines of the mapping file. The label lookup
    itself is a parameter. */
module LabelMapping {
  import opened Wrappers
  import opened Text
  import opened Rows
  import opened Paths

  /** `MAX_IDS_PER_REQUEST`. */
  const MaxIds: nat := 50

  // ---------------------------------------------------------------------
  // Collecting identifiers.

  /** `candidate.startswith("Q") and candidate[1:].isdigit()`. */
  predicate IsEntityId(c: string)
  {
    StartsWith(c, "Q") && AllDigits(c[1..])
  }

  /** `Q42` is an identifier; a bare `Q`, `Q12a` and the property `P31`
      are not. */
  lemma IsEntityIdExamples()
    ensures IsEntityId("Q42")
    ensures !IsEntityId("Q") && !IsEntityId("Q12a") && !IsEntityId("P31")
  {
    assert "Q42"[..1] == "Q" && "Q42"[1..] == "42";
    assert "Q"[1..] == "";
    assert "Q12a"[1..] == "12a" && "12a"[2] == 'a';
    assert "P31"[..1] == "P";
  }

  /** The identifier a candidate cell contributes, if it is one. */
  function Candidate(c: string): (ids: set<string>)
    ensures ids == {} || ids == {c}
    ensures c in ids <==> IsEntityId(c)
  {
    if IsEntityId(c) then {c} else {}
  }

  /** The identifiers of one raw line: its first and third column, when it
      is a triple line. */
  function LineIds(raw: string): (ids: set<string>)
    ensures forall x :: x in ids ==> IsEntityId(x)
  {
    match TripleColumns(raw)
    case None => {}
    case Some(parts) => Candidate(parts[0]) + Candidate(parts[2])
  }

  /** A line yields nothing unless it is a triple line, and then exactly
      those of its first and third columns that are identifiers; the
      relation column counts only when it also stands as the subject or the
      object. */
  lemma LineIdsMembers(raw: string, x: string)
    ensures TripleColumns(raw).None? ==> x !in LineIds(raw)
    ensures TripleColumns(raw).Some? ==>
      var parts := TripleColumns(raw).value;
      && (x in LineIds(raw) <==> IsEntityId(x) && (x == parts[0] || x == parts[2]))
      && (parts[1] != parts[0] && parts[1] != parts[2] ==> parts[1] !in LineIds(raw))
  {
  }

  /** The union of `f` over the elements of `xs`. */
  function UnionOf<T>(xs: seq<T>, f: T -> set<string>): set<string>
    decreases |xs|
  {
    if xs == [] then {} else UnionOf(xs[..|xs| - 1], f) + f(xs[|xs| - 1])
  }

  /** An element is in the union exactly when some `f(xs[j])` holds it. */
  lemma {:induction false} UnionOfMembers<T>(xs: seq<T>, f: T -> set<string>)
    ensures forall x :: x in UnionOf(xs, f) <==> exists j :: 0 <= j < |xs| && x in f(xs[j])
    decreases |xs|
  {
    if xs != [] {
      var init := xs[..|xs| - 1];
      UnionOfMembers(init, f);
      forall x ensures x in UnionOf(xs, f) <==> exists j :: 0 <= j < |xs| && x in f(xs[j]) {
        if x in UnionOf(init, f) {
          var j :| 0 <= j < |init| && x in f(init[j]);
          assert xs[j] == init[j];
        }
        if exists j :: 0 <= j < |xs| && x in f(xs[j]) {
          var j :| 0 <= j < |xs| && x in f(xs[j]);
          if j < |init| { assert init[j] == xs[j]; }
        }
      }
    }
  }

  /** The identifiers of a file's lines. */
  function FileIds(lines: seq<string>): set<string>
  {
    UnionOf(lines, LineIds)
  }

  /** A file contributes exactly the identifiers of its lines. */
  lemma FileIdsMembers(lines: seq<string>)
    ensures forall x :: x in FileIds(lines) <==> exists j :: 0 <= j < |lines| && x in LineIds(lines[j])
  {
    UnionOfMembers(lines, LineIds);
  }

  /** The loop of `collect_entity_ids` over `names`; opening a `.txt` entry
      that is a directory fails, with that name. */
  function Collected(entries: map<string, Node>, names: seq<string>): (r: Result<set<string>, string>)
    requires forall i :: 0 <= i < |names| ==> names[i] in entries
    decreases |names|
  {
    if names == [] then Success({})
    else
      var init := names[..|names| - 1];
      var name := names[|names| - 1];
      assert forall i :: 0 <= i < |init| ==> init[i] == names[i];
      match Collected(entries, init)
      case Failure(e) => Failure(e)
      case Success(ids) =>
        if !IsTxt(name) then Success(ids)
        else match entries[name]
          case Dir(_) => Failure(name)
          case File(lines) => Success(ids + FileIds(lines))
  }

  /** What one directory entry contributes: the identifiers of a `.txt`
      file, nothing otherwise. */
  function EntryIds(entries: map<string, Node>, name: string): set<string>
  {
    if name in entries && IsTxt(name) && entries[name].File? then FileIds(entries[name].lines) else {}
  }

  /** Collecting succeeds exactly when no `.txt` entry is a directory. */
  lemma {:induction false} CollectedSucceeds(entries: map<string, Node>, names: seq<string>)
    requires forall i :: 0 <= i < |names| ==> names[i] in entries
    ensures Collected(entries, names).Success? <==> TxtAreFiles(entries, names)
    decreases |names|
  {
    if names != [] {
      var init := names[..|names| - 1];
      var name := names[|names| - 1];
      assert forall i :: 0 <= i < |init| ==> init[i] == names[i];
      CollectedSucceeds(entries, init);
      if TxtAreFiles(entries, init) && (IsTxt(name) ==> entries[name].File?) {
        forall i | 0 <= i < |names| ensures IsTxt(names[i]) ==> entries[names[i]].File? {
          if i < |init| { assert names[i] == init[i]; }
        }
      }
    }
  }

  /** `EntryIds` of one directory, as a function of the name. */
  function EntryIdsOf(entries: map<string, Node>): string -> set<string>
  {
    name => EntryIds(entries, name)
  }

  /** A successful collection is the union of what the entries contribute. */
  lemma {:induction false} CollectedUnion(entries: map<string, Node>, names: seq<string>)
    requires forall i :: 0 <= i < |names| ==> names[i] in entries
    ensures Collected(entries, names).Success? ==> Collected(entries, names).value == UnionOf(names, EntryIdsOf(entries))
    decreases |names|
  {
    if names != [] {
      var init := names[..|names| - 1];
      var name := names[|names| - 1];
      assert forall i :: 0 <= i < |init| ==> init[i] == names[i];
      CollectedUnion(entries, init);
      assert EntryIdsOf(entries)(name) == EntryIds(entries, name);
    }
  }

  /** A successful collection yields the identifiers of the `.txt` files
      and nothing else. */
  lemma CollectedMembers(entries: map<string, Node>, names: seq<string>)
    requires forall i :: 0 <= i < |names| ==> names[i] in entries
    ensures Collected(entries, names).Success? ==>
      forall x :: x in Collected(entries, names).value <==>
        exists i :: 0 <= i < |names| && x in EntryIds(entries, names[i])
  {
    CollectedUnion(entries, names);
    UnionOfMembers(names, EntryIdsOf(entries));
  }

  /** `collect_entity_ids(dataset_dir)` over the directory's entries in
      sorted order. */
  method CollectEntityIds(entries: map<string, Node>) returns (r: Result<set<string>, string>)
    ensures r == Collected(entries, SortedNames(entries))
  {
    var names := SortedNames(entries);
    var entityIds: set<string> := {};
    for i := 0 to |names|
      invariant Collected(entries, names[..i]) == Success(entityIds)
    {
      CollectedStep(entries, names, i);
      var entry := names[i];
      if !IsTxt(entry) {
        continue;
      }
      if entries[entry].Dir? {
        CollectedFailsAt(entries, names, i);
        return Failure(entry);
      }
      entityIds := CollectFromLines(entries[entry].lines, entityIds);
    }
    assert names[..|names|] == names;
    return Success(entityIds);
  }

  /** The inner loop of `collect_entity_ids`: the lines of one file add
      their identifiers to `ids`. */
  method CollectFromLines(lines: seq<string>, ids: set<string>) returns (entityIds: set<string>)
    ensures entityIds == ids + FileIds(lines)
  {
    entityIds := ids;
    for j := 0 to |lines|
      invariant entityIds == ids + FileIds(lines[..j])
    {
      assert lines[..j + 1][..j] == lines[..j];
      var line := Strip(lines[j]);
      if line == "" {
        continue;
      }
      var parts := Split(line, '\t');
      if |parts| < 3 {
        continue;
      }
      if IsEntityId(parts[0]) {
        entityIds := entityIds + {parts[0]};
      }
      if IsEntityId(parts[2]) {
        entityIds := entityIds + {parts[2]};
      }
    }
    assert lines[..|lines|] == lines;
  }

  /** One more name is one more step of the outer loop. */
  lemma CollectedStep(entries: map<string, Node>, names: seq<string>, i: nat)
    requires forall k :: 0 <= k < |names| ==> names[k] in entries
    requires i < |names|
    ensures Collected(entries, names[..i + 1]) ==
      match Collected(entries, names[..i])
      case Failure(e) => Failure(e)
      case Success(ids) =>
        if !IsTxt(names[i]) then Success(ids)
        else if entries[names[i]].Dir? then Failure(names[i])
        else Success(ids + FileIds(entries[names[i]].lines))
  {
    assert names[..i + 1][..i] == names[..i];
  }

  /** A `.txt` directory reached by the outer loop ends the collection
      with its name. */
  lemma CollectedFailsAt(entries: map<string, Node>, names: seq<string>, i: nat)
    requires forall k :: 0 <= k < |names| ==> names[k] in entries
    requires i < |names| && Collected(entries, names[..i]).Success?
    requires IsTxt(names[i]) && entries[names[i]].Dir?
    ensures Collected(entries, names) == Failure(names[i])
  {
    CollectedStep(entries, names, i);
    CollectedFailed(entries, names, i + 1);
  }

  /** Once the outer loop has failed, more names keep the failure. */
  lemma {:induction false} CollectedFailed(entries: map<string, Node>, names: seq<string>, i: nat)
    requires forall k :: 0 <= k < |names| ==> names[k] in entries
    requires i <= |names|
    requires Collected(entries, names[..i]).Failure?
    ensures Collected(entries, names) == Collected(entries, names[..i])
    decreases |names| - i
  {
    if i < |names| {
      CollectedStep(entries, names, i);
      CollectedFailed(entries, names, i + 1);
    } else {
      assert names[..i] == names;
    }
  }

  // ---------------------------------------------------------------------
  // Batches.

  /** The lists `batched(xs, size)` yields: slices of `size` elements, the
      last one possibly shorter; none at all when `size` is 0. */
  function Batches<T>(xs: seq<T>, size: nat): seq<seq<T>>
    decreases |xs|
  {
    if size == 0 || xs == [] then []
    else if |xs| <= size then [xs]
    else [xs[..size]] + Batches(xs[size..], size)
  }

  /** The elements of the batches, one batch after the other. */
  function Concat<T>(bs: seq<seq<T>>): seq<T>
    decreases |bs|
  {
    if bs == [] then [] else bs[0] + Concat(bs[1..])
  }

  /** With a positive size the batches are non-empty and all but the
      last hold exactly `size` elements. */
  lemma {:induction false} BatchesSizes<T>(xs: seq<T>, size: nat)
    requires size > 0
    ensures forall i :: 0 <= i < |Batches(xs, size)| ==>
      Batches(xs, size)[i] != [] && |Batches(xs, size)[i]| <= size
    ensures forall i :: 0 <= i < |Batches(xs, size)| - 1 ==> |Batches(xs, size)[i]| == size
    decreases |xs|
  {
    if |xs| > size {
      var rest := Batches(xs[size..], size);
      BatchesSizes(xs[size..], size);
      assert forall i :: 1 <= i < |Batches(xs, size)| ==> Batches(xs, size)[i] == rest[i - 1];
    }
  }

  /** With a positive size the batches, one after the other, are `xs`. */
  lemma {:induction false} BatchesConcat<T>(xs: seq<T>, size: nat)
    requires size > 0
    ensures Concat(Batches(xs, size)) == xs
    decreases |xs|
  {
    var bs := Batches(xs, size);
    if xs != [] && |xs| <= size {
      assert bs == [xs];
      assert bs[1..] == [];
      assert Concat(bs) == xs + Concat([]);
    } else if |xs| > size {
      var rest := Batches(xs[size..], size);
      assert bs == [xs[..size]] + rest;
      BatchesConcat(xs[size..], size);
      assert bs[1..] == rest;
      assert Concat(bs) == xs[..size] + Concat(rest);
      assert xs == xs[..size] + xs[size..];
    }
  }

  /** With a positive size there are `ceil(|xs| / size)` batches: one
      fewer would hold fewer than `|xs|` elements. */
  lemma {:induction false} BatchesCount<T>(xs: seq<T>, size: nat)
    requires size > 0
    ensures xs == [] <==> Batches(xs, size) == []
    ensures xs != [] ==> (|Batches(xs, size)| - 1) * size < |xs| <= |Batches(xs, size)| * size
    decreases |xs|
  {
    if |xs| > size {
      var n := |Batches(xs[size..], size)|;
      BatchesCount(xs[size..], size);
      assert (n + 1) * size == n * size + size;
    }
  }

  /** `batched(iterable, size)`: slices taken from the front until a slice
      comes out empty. */
  method Batched<T>(xs: seq<T>, size: nat) returns (batches: seq<seq<T>>)
    ensures batches == Batches(xs, size)
    ensures size == 0 ==> batches == []
  {
    batches := [];
    var rest := xs;
    while true
      invariant batches + Batches(rest, size) == Batches(xs, size)
      decreases |rest|
    {
      var n := if size < |rest| then size else |rest|;
      var batch := rest[..n];
      ghost var before := rest;
      rest := rest[n..];
      if batch == [] {
        break;
      }
      if |before| <= size {
        assert batch == before && rest == [];
      } else {
        assert Batches(before, size) == [batch] + Batches(rest, size);
      }
      batches := batches + [batch];
    }
    assert batches + [] == batches;
  }

  // ---------------------------------------------------------------------
  // The mapping.

  /** Why the run stops: no identifier was collected, or a `.txt` entry is
      a directory. */
  datatype MappingError = NoEntityIds | IsADirectory(name: string)

  /** The mapping after the answers for `bs` were merged in request order
      with `dict.update`. */
  function Fetched(bs: seq<seq<string>>, fetch: seq<string> -> map<string, string>): map<string, string>
    decreases |bs|
  {
    if bs == [] then map[] else Fetched(bs[..|bs| - 1], fetch) + fetch(bs[|bs| - 1])
  }

  /** A key is mapped exactly when some answer holds it, and to the label
      of the last answer that holds it. */
  lemma {:induction false} FetchedLaterWins(bs: seq<seq<string>>, fetch: seq<string> -> map<string, string>, k: string, j: nat)
    requires j < |bs| && k in fetch(bs[j])
    requires forall l :: j < l < |bs| ==> k !in fetch(bs[l])
    ensures k in Fetched(bs, fetch) && Fetched(bs, fetch)[k] == fetch(bs[j])[k]
    decreases |bs|
  {
    var init := bs[..|bs| - 1];
    if j < |init| {
      assert forall l :: j < l < |init| ==> init[l] == bs[l];
      FetchedLaterWins(init, fetch, k, j);
      assert init[j] == bs[j];
    }
  }

  /** Every mapped key comes from some answer. */
  lemma {:induction false} FetchedKeys(bs: seq<seq<string>>, fetch: seq<string> -> map<string, string>)
    ensures forall k :: k in Fetched(bs, fetch) ==> exists j :: 0 <= j < |bs| && k in fetch(bs[j])
    decreases |bs|
  {
    if bs != [] {
      var init := bs[..|bs| - 1];
      FetchedKeys(init, fetch);
      forall k | k in Fetched(bs, fetch) ensures exists j :: 0 <= j < |bs| && k in fetch(bs[j]) {
        if k !in fetch(bs[|bs| - 1]) {
          assert k in Fetched(init, fetch);
          var j :| 0 <= j < |init| && k in fetch(init[j]);
          assert bs[j] == init[j];
        }
      }
    }
  }

  /** What the progress line reports after batch `index`:
      `min(index * MAX_IDS_PER_REQUEST, total)`. */
  function Progress(index: nat, total: nat): (p: nat)
    ensures p <= total
    ensures index * MaxIds >= total ==> p == total
  {
    if index * MaxIds < total then index * MaxIds else total
  }

  /** The run of `build_mapping` over the collected identifiers: fatal
      when there are none, otherwise the merged answers to the batches of
      the sorted identifiers and the progress count after each batch. */
  method BuildMapping(ids: set<string>, fetch: seq<string> -> map<string, string>)
    returns (r: Result<(map<string, string>, seq<nat>), MappingError>)
    ensures r.Failure? <==> ids == {}
    ensures r.Failure? ==> r.error == NoEntityIds
    ensures r.Success? ==> r.value.0 == Fetched(Batches(SortedElements(ids), MaxIds), fetch)
    ensures r.Success? ==> |r.value.1| == |Batches(SortedElements(ids), MaxIds)| > 0
    ensures r.Success? ==> forall i :: 0 <= i < |r.value.1| ==> r.value.1[i] <= |ids|
    ensures r.Success? ==> forall i, j :: 0 <= i < j < |r.value.1| ==> r.value.1[i] <= r.value.1[j]
    ensures r.Success? ==> r.value.1[|r.value.1| - 1] == |ids|
  {
    var entityIds := SortedElements(ids);
    if entityIds == [] {
      return Failure(NoEntityIds);
    }
    var total := |entityIds|;
    var batches := Batched(entityIds, MaxIds);
    BatchesCount(entityIds, MaxIds);
    var mapping: map<string, string> := map[];
    var progress: seq<nat> := [];
    for index := 0 to |batches|
      invariant mapping == Fetched(batches[..index], fetch)
      invariant |progress| == index
      invariant forall i :: 0 <= i < index ==> progress[i] == Progress(i + 1, total)
    {
      assert batches[..index + 1][..index] == batches[..index];
      var labels := fetch(batches[index]);
      mapping := mapping + labels;
      progress := progress + [Progress(index + 1, total)];
    }
    assert batches[..|batches|] == batches;
    return Success((mapping, progress));
  }

  /** `main` without the file writes: `build_mapping` collects the
      identifiers of the dataset directory (a `.txt` directory makes `open`
      fail), fetches their labels, and the mapping is rendered as the lines
      of the output file. */
  method BuildRun(entries: map<string, Node>, fetch: seq<string> -> map<string, string>)
    returns (r: Result<(map<string, string>, seq<string>), MappingError>)
    ensures var collected := Collected(entries, SortedNames(entries));
      && (collected.Failure? <==> r.Failure? && r.error.IsADirectory?)
      && (collected.Failure? ==> r == Failure(IsADirectory(collected.error)))
      && (collected.Success? ==> (r.Failure? <==> collected.value == {}))
      && (r == Failure(NoEntityIds) <==> collected == Success({}))
      && (r.Success? ==>
            && collected.Success?
            && r.value.0 == Fetched(Batches(SortedElements(collected.value), MaxIds), fetch)
            && r.value.1 == RenderMapping(r.value.0))
  {
    var ids := CollectEntityIds(entries);
    if ids.Failure? {
      return Failure(IsADirectory(ids.error));
    }
    var built := BuildMapping(ids.value, fetch);
    if built.Failure? {
      return Failure(built.error);
    }
    var mapping := built.value.0;
    return Success((mapping, RenderMapping(mapping)));
  }

  /** The lines of the mapping file: one `id<TAB>label` line per entry, in
      ascending order of the identifiers. */
  function RenderMapping(mapping: map<string, string>): (lines: seq<string>)
    ensures |lines| == |mapping|
    ensures forall i :: 0 <= i < |lines| ==>
      exists id :: id in mapping && lines[i] == id + "\t" + mapping[id] + "\n"
    ensures var ids := SortedElements(mapping.Keys);
      && SortedStrings(ids) && Distinct(ids)
      && forall i :: 0 <= i < |lines| ==> ids[i] in mapping && lines[i] == ids[i] + "\t" + mapping[ids[i]] + "\n"
  {
    var ids := SortedElements(mapping.Keys);
    seq(|ids|, i requires 0 <= i < |ids| => ids[i] + "\t" + mapping[ids[i]] + "\n")
  }
}
