/**
 The recursive include loader of the configuration parser: copies of the dictionaries are filled while
 a file and its includes load, and committed only when all of it succeeded.
 */
module Include {
  import opened Packets

  type Path = string
  type Hash = string
  type Section = map<string, string>
  type Tops = map<string, Section>
  // None marks an optional include that was skipped.
  type Hashes = map<Path, Option<Hash>>

  datatype SectionConf = Dict(entries: Section) | NotADict

  datatype IncludeConf = List(paths: seq<Path>) | NotAList

  // Includes stand as the paths dp_config_path resolves them to.
  datatype Parsed =
    | Unreadable
    | Conf(sections: map<string, SectionConf>, required: IncludeConf, optional: IncludeConf)

  datatype File = File(hash: Hash, parsed: Parsed)

  type FileSystem = map<Path, File>

  const VERSION := "version"

  datatype Loaded = Loaded(hashes: Hashes, tops: Tops, order: seq<Path>)

  function EntriesFor(sections: map<string, SectionConf>, name: string): (r: Result<Section>) {
    if name !in sections then Ok(map[])
    else match sections[name] case Dict(entries) => Ok(entries) case NotADict => Raised
  }

  predicate Mergeable(tops: Tops, sections: map<string, SectionConf>) {
    (forall name | name in sections :: name in tops || name == VERSION) &&
    (forall name | name in tops :: EntriesFor(sections, name).Ok?)
  }

  /** The same sections, with nothing taken out of any. */
  predicate Extends(a: Tops, b: Tops) {
    a.Keys == b.Keys && forall name | name in a :: a[name].Keys <= b[name].Keys
  }

  /** Right-biased: the file's entries replace what was there. */
  function Merged(tops: Tops, sections: map<string, SectionConf>): (r: Tops)
    ensures Extends(tops, r)
  {
    map name | name in tops ::
      tops[name] + match EntriesFor(sections, name) case Ok(entries) => entries case Raised => map[]
  }

  // ---------------------------------------------------------------------------------------------
  // Why it ends
  // ---------------------------------------------------------------------------------------------

  /** Twice the files not hashed yet, plus one while an already hashed file is being read again. */
  function Measure(fs: FileSystem, hashes: Hashes, file: Path): (r: nat) {
    2 * |fs.Keys - hashes.Keys| + if file in hashes && file in fs then 1 else 0
  }

  lemma SubsetSize(a: set<Path>, b: set<Path>)
    requires a <= b
    ensures |a| <= |b| && (a != b ==> |a| < |b|)
  {
    assert b == a + (b - a);
    assert |b| == |a| + |b - a|;
  }

  /**
   Every nested call shrinks the measure, although the loop check consults the caller's hashes and so
   lets a file include itself once.
   */
  lemma NestedCallShrinks(fs: FileSystem, hashes: Hashes, file: Path, newHashes: Hashes, included: Path)
    requires file in fs && file in newHashes && hashes.Keys <= newHashes.Keys && included !in hashes
    ensures Measure(fs, newHashes, included) < Measure(fs, hashes, file)
  {
    var before, after := fs.Keys - hashes.Keys, fs.Keys - newHashes.Keys;
    SubsetSize(after, before);
    if file !in hashes {
      assert file in before && file !in after;
    } else if included in newHashes && included in fs {
      assert included in before && included !in after;
    }
  }

  // ---------------------------------------------------------------------------------------------
  // What one call computes
  // ---------------------------------------------------------------------------------------------

  function Load(fs: FileSystem, hashes: Hashes, tops: Tops, file: Path): (r: Result<Loaded>)
    ensures r.Ok? ==> file in fs && file in r.value.hashes && hashes.Keys <= r.value.hashes.Keys
    ensures r.Ok? ==> Extends(tops, r.value.tops)
    decreases Measure(fs, hashes, file), 1, 0, 0
  {
    if file !in fs || fs[file].parsed.Unreadable? then Raised
    else
      var conf := fs[file].parsed;
      if !Mergeable(tops, conf.sections) then Raised
      else LoadIncludes(fs, hashes, file, Start(fs, hashes, tops, file))
  }

  /** The copies with the file's own hash and sections entered. */
  function Start(fs: FileSystem, hashes: Hashes, tops: Tops, file: Path): (r: Loaded)
    requires file in fs && fs[file].parsed.Conf?
  {
    Loaded(hashes[file := Some(fs[file].hash)], Merged(tops, fs[file].parsed.sections), [file])
  }

  function LoadIncludes(fs: FileSystem, hashes: Hashes, file: Path, sofar: Loaded): (r: Result<Loaded>)
    requires file in fs && fs[file].parsed.Conf? && file in sofar.hashes && hashes.Keys <= sofar.hashes.Keys
    ensures r.Ok? ==> file in r.value.hashes && hashes.Keys <= r.value.hashes.Keys
    ensures r.Ok? ==> Extends(sofar.tops, r.value.tops)
    decreases Measure(fs, hashes, file), 0, 1, 0
  {
    var conf := fs[file].parsed;
    if conf.required.NotAList? then Raised
    else match LoadAll(fs, hashes, file, sofar, conf.required.paths, true)
      case Raised => Raised
      case Ok(afterRequired) =>
        if conf.optional.NotAList? then Raised
        else LoadAll(fs, hashes, file, afterRequired, conf.optional.paths, false)
  }

  /** The includes one after the other; hashes are the caller's, so far what has been gathered. */
  function LoadAll(
      fs: FileSystem, hashes: Hashes, file: Path, sofar: Loaded, paths: seq<Path>, required: bool): (r: Result<Loaded>)
    requires file in fs && file in sofar.hashes && hashes.Keys <= sofar.hashes.Keys
    ensures r.Ok? ==> file in r.value.hashes && hashes.Keys <= r.value.hashes.Keys
    ensures r.Ok? ==> Extends(sofar.tops, r.value.tops)
    decreases Measure(fs, hashes, file), 0, 0, |paths|
  {
    if paths == [] then Ok(sofar)
    else if paths[0] in hashes then Raised
    else
      NestedCallShrinks(fs, hashes, file, sofar.hashes, paths[0]);
      match Load(fs, sofar.hashes, sofar.tops, paths[0])
      case Ok(r) =>
        LoadAll(fs, hashes, file, Loaded(r.hashes, r.tops, sofar.order + r.order), paths[1..], required)
      case Raised =>
        if required then Raised
        else LoadAll(fs, hashes, file, sofar.(hashes := sofar.hashes[paths[0] := None]), paths[1..], required)
  }

  // ---------------------------------------------------------------------------------------------
  // The loader itself
  // ---------------------------------------------------------------------------------------------

  /** The dictionaries a caller passes in to be filled. */
  class Dictionaries {
    var hashes: Hashes
    var tops: Tops

    constructor (hashes: Hashes, tops: Tops)
      ensures this.hashes == hashes && this.tops == tops
    {
      this.hashes := hashes;
      this.tops := tops;
    }
  }

  ghost predicate Holds(d: Dictionaries, l: Loaded)
    reads d
  {
    d.hashes == l.hashes && d.tops == l.tops
  }

  /** Failure leaves the caller's dictionaries untouched; success commits the whole load at once. */
  method DpInclude(fs: FileSystem, d: Dictionaries, file: Path) returns (ok: bool)
    modifies d
    ensures ok == Load(fs, old(d.hashes), old(d.tops), file).Ok?
    ensures ok ==> Holds(d, Load(fs, old(d.hashes), old(d.tops), file).value)
    ensures !ok ==> d.hashes == old(d.hashes) && d.tops == old(d.tops)
    decreases Measure(fs, d.hashes, file), 1, 0, 0
  {
    if file !in fs || fs[file].parsed.Unreadable? {
      return false;
    }
    if !Mergeable(d.tops, fs[file].parsed.sections) {
      return false;
    }
    var start := Start(fs, d.hashes, d.tops, file);
    var copy := new Dictionaries(start.hashes, start.tops);
    ok := IncludeBoth(fs, d.hashes, file, copy, start);
    if ok {
      CommitIsCopy(d.hashes, d.tops, copy.hashes, copy.tops);
      d.hashes := d.hashes + copy.hashes;
      d.tops := Updated(d.tops, copy.tops);
    }
  }

  /** Every section updated with the new one of its name. */
  function Updated(tops: Tops, new_: Tops): (r: Tops) {
    map name | name in tops && name in new_ :: tops[name] + new_[name]
  }

  lemma CommitIsCopy(hashes: Hashes, tops: Tops, newHashes: Hashes, newTops: Tops)
    requires hashes.Keys <= newHashes.Keys && Extends(tops, newTops)
    ensures hashes + newHashes == newHashes && Updated(tops, newTops) == newTops
  {
    forall name | name in tops ensures tops[name] + newTops[name] == newTops[name] {
      assert tops[name].Keys <= newTops[name].Keys;
    }
  }

  method IncludeBoth(fs: FileSystem, hashes: Hashes, file: Path, copy: Dictionaries, ghost start: Loaded)
    returns (ok: bool)
    requires file in fs && fs[file].parsed.Conf?
    requires file in start.hashes && hashes.Keys <= start.hashes.Keys && Holds(copy, start)
    modifies copy
    ensures ok == LoadIncludes(fs, hashes, file, start).Ok?
    ensures ok ==> Holds(copy, LoadIncludes(fs, hashes, file, start).value)
    decreases Measure(fs, hashes, file), 0, 1, 0
  {
    var conf := fs[file].parsed;
    if conf.required.NotAList? {
      return false;
    }
    var loaded := IncludeAll(fs, hashes, file, copy, start, conf.required.paths, true);
    if !loaded || conf.optional.NotAList? {
      return false;
    }
    ghost var afterRequired := LoadAll(fs, hashes, file, start, conf.required.paths, true).value;
    ok := IncludeAll(fs, hashes, file, copy, afterRequired, conf.optional.paths, false);
  }

  method IncludeAll(fs: FileSystem, hashes: Hashes, file: Path, copy: Dictionaries, ghost sofar: Loaded,
                    paths: seq<Path>, required: bool)
    returns (ok: bool)
    requires file in fs && file in sofar.hashes && hashes.Keys <= sofar.hashes.Keys && Holds(copy, sofar)
    modifies copy
    ensures ok == LoadAll(fs, hashes, file, sofar, paths, required).Ok?
    ensures ok ==> Holds(copy, LoadAll(fs, hashes, file, sofar, paths, required).value)
    decreases Measure(fs, hashes, file), 0, 0, 0
  {
    ghost var goal := LoadAll(fs, hashes, file, sofar, paths, required);
    ghost var now_ := sofar;
    var i := 0;
    while i < |paths|
      invariant i <= |paths| && Holds(copy, now_)
      invariant file in now_.hashes && hashes.Keys <= now_.hashes.Keys
      invariant LoadAll(fs, hashes, file, now_, paths[i..], required) == goal
    {
      assert paths[i..][0] == paths[i] && paths[i..][1..] == paths[i + 1..];
      if paths[i] in hashes {
        return false;
      }
      NestedCallShrinks(fs, hashes, file, copy.hashes, paths[i]);
      ghost var nested := Load(fs, now_.hashes, now_.tops, paths[i]);
      var loaded := DpInclude(fs, copy, paths[i]);
      if loaded {
        now_ := Loaded(nested.value.hashes, nested.value.tops, now_.order + nested.value.order);
      } else {
        if required {
          return false;
        }
        copy.hashes := copy.hashes[paths[i] := None];
        now_ := now_.(hashes := now_.hashes[paths[i] := None]);
      }
      i := i + 1;
    }
    return true;
  }

  // ---------------------------------------------------------------------------------------------
  // Success is a fold over the files that loaded
  // ---------------------------------------------------------------------------------------------

  /** The sections of the named files merged in turn. */
  function MergeFiles(fs: FileSystem, tops: Tops, order: seq<Path>): (r: Tops)
    decreases |order|
  {
    if order == [] then tops
    else
      var next := if order[0] in fs && fs[order[0]].parsed.Conf?
                  then Merged(tops, fs[order[0]].parsed.sections) else tops;
      MergeFiles(fs, next, order[1..])
  }

  lemma {:induction false} MergeFilesConcat(fs: FileSystem, tops: Tops, a: seq<Path>, b: seq<Path>)
    ensures MergeFiles(fs, tops, a + b) == MergeFiles(fs, MergeFiles(fs, tops, a), b)
    decreases |a|
  {
    if a == [] {
      assert a + b == b;
    } else {
      assert (a + b)[1..] == a[1..] + b;
      var next := if a[0] in fs && fs[a[0]].parsed.Conf? then Merged(tops, fs[a[0]].parsed.sections) else tops;
      MergeFilesConcat(fs, next, a[1..], b);
    }
  }

  lemma {:induction false} LoadIsAFold(fs: FileSystem, hashes: Hashes, tops: Tops, file: Path)
    requires Load(fs, hashes, tops, file).Ok?
    ensures
      var r := Load(fs, hashes, tops, file).value;
      r.order != [] && r.order[0] == file && r.tops == MergeFiles(fs, tops, r.order)
    decreases Measure(fs, hashes, file), 1, 0
  {
    var conf := fs[file].parsed;
    var start := Start(fs, hashes, tops, file);
    assert [file][1..] == [];
    assert start.tops == MergeFiles(fs, tops, [file]) by {
      assert MergeFiles(fs, Merged(tops, conf.sections), []) == Merged(tops, conf.sections);
    }
    LoadAllIsAFold(fs, hashes, file, start, conf.required.paths, true, tops);
    var afterRequired := LoadAll(fs, hashes, file, start, conf.required.paths, true).value;
    LoadAllIsAFold(fs, hashes, file, afterRequired, conf.optional.paths, false, tops);
  }

  lemma {:induction false} LoadAllIsAFold(
    fs: FileSystem, hashes: Hashes, file: Path, sofar: Loaded, paths: seq<Path>, required: bool, tops: Tops)
    requires file in fs && file in sofar.hashes && hashes.Keys <= sofar.hashes.Keys
    requires sofar.tops == MergeFiles(fs, tops, sofar.order)
    requires LoadAll(fs, hashes, file, sofar, paths, required).Ok?
    ensures
      var r := LoadAll(fs, hashes, file, sofar, paths, required).value;
      sofar.order <= r.order && r.tops == MergeFiles(fs, tops, r.order)
    decreases Measure(fs, hashes, file), 0, |paths|
  {
    if paths != [] {
      NestedCallShrinks(fs, hashes, file, sofar.hashes, paths[0]);
      match Load(fs, sofar.hashes, sofar.tops, paths[0])
      case Ok(r) =>
        LoadIsAFold(fs, sofar.hashes, sofar.tops, paths[0]);
        MergeFilesConcat(fs, tops, sofar.order, r.order);
        LoadAllIsAFold(fs, hashes, file, Loaded(r.hashes, r.tops, sofar.order + r.order), paths[1..], required, tops);
      case Raised =>
        LoadAllIsAFold(fs, hashes, file, sofar.(hashes := sofar.hashes[paths[0] := None]), paths[1..], required, tops);
    }
  }

  // ---------------------------------------------------------------------------------------------
  // When the configuration counts as changed
  // ---------------------------------------------------------------------------------------------

  /** Recorded hashes are those of existing files. */
  predicate HashesTrue(fs: FileSystem, hashes: Hashes) {
    forall p | p in hashes && hashes[p].Some? :: p in fs && hashes[p].value == fs[p].hash
  }

  lemma {:induction false} LoadRecordsTrueHashes(fs: FileSystem, hashes: Hashes, tops: Tops, file: Path)
    requires HashesTrue(fs, hashes) && Load(fs, hashes, tops, file).Ok?
    ensures HashesTrue(fs, Load(fs, hashes, tops, file).value.hashes)
    decreases Measure(fs, hashes, file), 1, 0
  {
    var conf := fs[file].parsed;
    var start := Start(fs, hashes, tops, file);
    LoadAllRecordsTrueHashes(fs, hashes, file, start, conf.required.paths, true);
    var afterRequired := LoadAll(fs, hashes, file, start, conf.required.paths, true).value;
    LoadAllRecordsTrueHashes(fs, hashes, file, afterRequired, conf.optional.paths, false);
  }

  lemma {:induction false} LoadAllRecordsTrueHashes(
    fs: FileSystem, hashes: Hashes, file: Path, sofar: Loaded, paths: seq<Path>, required: bool)
    requires file in fs && file in sofar.hashes && hashes.Keys <= sofar.hashes.Keys
    requires HashesTrue(fs, sofar.hashes) && LoadAll(fs, hashes, file, sofar, paths, required).Ok?
    ensures HashesTrue(fs, LoadAll(fs, hashes, file, sofar, paths, required).value.hashes)
    decreases Measure(fs, hashes, file), 0, |paths|
  {
    if paths != [] {
      NestedCallShrinks(fs, hashes, file, sofar.hashes, paths[0]);
      match Load(fs, sofar.hashes, sofar.tops, paths[0])
      case Ok(r) =>
        LoadRecordsTrueHashes(fs, sofar.hashes, sofar.tops, paths[0]);
        var more := Loaded(r.hashes, r.tops, sofar.order + r.order);
        LoadAllRecordsTrueHashes(fs, hashes, file, more, paths[1..], required);
      case Raised =>
        var skipped := sofar.(hashes := sofar.hashes[paths[0] := None]);
        LoadAllRecordsTrueHashes(fs, hashes, file, skipped, paths[1..], required);
    }
  }

  /** A loaded file is missing or has other contents, or a skipped one is there. */
  predicate Differs(fs: FileSystem, p: Path, hash: Option<Hash>) {
    match hash
    case None => p in fs
    case Some(h) => p !in fs || fs[p].hash != h
  }

  method ConfigChanged(fs: FileSystem, top: Path, newTop: Option<Path>, hashes: Option<Hashes>)
    returns (changed: bool)
    ensures changed <==>
      newTop != Some(top) ||
      (hashes.Some? && exists p | p in hashes.value :: Differs(fs, p, hashes.value[p]))
  {
    if newTop != Some(top) {
      return true;
    }
    if hashes.None? || newTop.None? {
      return false;
    }
    var todo := hashes.value.Keys;
    while todo != {}
      invariant todo <= hashes.value.Keys
      invariant forall p | p in hashes.value && p !in todo :: !Differs(fs, p, hashes.value[p])
      decreases todo
    {
      var p :| p in todo;
      var hash, exists_ := hashes.value[p], p in fs;
      if hash.None? && exists_ {
        return true;
      }
      if hash.Some? && !exists_ {
        return true;
      }
      if exists_ {
        if Some(fs[p].hash) != hash {
          return true;
        }
      }
      todo := todo - {p};
    }
    return false;
  }

  /**
   After a successful load from scratch, the unchanged file system counts as unchanged exactly when
   every skipped optional include is an absent file.
   */
  lemma UnchangedIff(fs: FileSystem, tops: Tops, file: Path)
    requires Load(fs, map[], tops, file).Ok?
    ensures
      var hashes := Load(fs, map[], tops, file).value.hashes;
      (forall p | p in hashes :: !Differs(fs, p, hashes[p])) <==>
      (forall p | p in hashes && hashes[p].None? :: p !in fs)
  {
    LoadRecordsTrueHashes(fs, map[], tops, file);
  }

  /** Any later file system in which a loaded file differs or a skipped file appears counts as changed. */
  lemma ChangeIsNoticed(fs: FileSystem, fs': FileSystem, tops: Tops, file: Path, p: Path)
    requires Load(fs, map[], tops, file).Ok? && p in Load(fs, map[], tops, file).value.hashes
    ensures
      var recorded := Load(fs, map[], tops, file).value.hashes[p];
      (recorded.Some? ==> p in fs && (Differs(fs', p, recorded) <==> p !in fs' || fs'[p].hash != fs[p].hash)) &&
      (recorded.None? ==> (Differs(fs', p, recorded) <==> p in fs'))
  {
    LoadRecordsTrueHashes(fs, map[], tops, file);
  }

  /** Reading a file again below itself fails: by then it is among the caller's hashes. */
  lemma SecondReadingFails(fs: FileSystem, hashes: Hashes, tops: Tops, file: Path)
    requires file in fs && fs[file].parsed.Conf? && file in hashes
    requires fs[file].parsed.required == List([file]) ||
             (fs[file].parsed.required == List([]) && fs[file].parsed.optional == List([file]))
    ensures Load(fs, hashes, tops, file).Raised?
  {
    if Mergeable(tops, fs[file].parsed.sections) {
      var start := Start(fs, hashes, tops, file);
      assert LoadAll(fs, hashes, file, start, [file], true).Raised?;
      assert LoadAll(fs, hashes, file, start, [file], false).Raised?;
      assert LoadAll(fs, hashes, file, start, [], true) == Ok(start);
    }
  }

  /** Requiring itself makes a file unloadable, after the one nested reading that the check admits. */
  lemma RequiredSelfIncludeFails(fs: FileSystem, tops: Tops, file: Path)
    requires file in fs && fs[file].parsed.Conf? && fs[file].parsed.required == List([file])
    ensures Load(fs, map[], tops, file).Raised?
  {
    if Mergeable(tops, fs[file].parsed.sections) {
      var start := Start(fs, map[], tops, file);
      SecondReadingFails(fs, start.hashes, start.tops, file);
      assert LoadAll(fs, map[], file, start, [file], true).Raised?;
    }
  }

  /** A file optionally including itself loads, but is recorded as skipped and so always seems changed. */
  lemma OptionalSelfIncludeAlwaysChanged(fs: FileSystem, tops: Tops, file: Path)
    requires file in fs && fs[file].parsed.Conf? && Mergeable(tops, fs[file].parsed.sections)
    requires fs[file].parsed.required == List([]) && fs[file].parsed.optional == List([file])
    ensures
      var r := Load(fs, map[], tops, file);
      r.Ok? && r.value.hashes == map[file := None] && Differs(fs, file, None)
  {
    var start := Start(fs, map[], tops, file);
    SecondReadingFails(fs, start.hashes, start.tops, file);
    assert LoadAll(fs, map[], file, start, [], true) == Ok(start);
    var skipped := start.(hashes := start.hashes[file := None]);
    assert [file][1..] == [];
    assert LoadAll(fs, map[], file, skipped, [], false) == Ok(skipped);
    assert LoadAll(fs, map[], file, start, [file], false) == Ok(skipped);
    assert skipped.hashes == map[file := None];
  }
}
