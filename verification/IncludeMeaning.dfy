/**
 What a successful load leaves behind, file by file: every file it read is readable and mergeable, what they
 require has been read too, and each setting is that of the last file that has it.
 */
module IncludeMeaning {
  import opened Packets
  import opened Include

  // ---------------------------------------------------------------------------------------------
  // The last file that has a setting decides
  // ---------------------------------------------------------------------------------------------

  predicate Gives(fs: FileSystem, file: Path, name: string, key: string) {
    && file in fs && fs[file].parsed.Conf?
    && name in fs[file].parsed.sections && fs[file].parsed.sections[name].Dict?
    && key in fs[file].parsed.sections[name].entries
  }

  function Given(fs: FileSystem, file: Path, name: string, key: string): (r: string)
    requires Gives(fs, file, name, key)
  {
    fs[file].parsed.sections[name].entries[key]
  }

  ghost predicate NoneGives(fs: FileSystem, order: seq<Path>, name: string, key: string) {
    forall file | file in order :: !Gives(fs, file, name, key)
  }

  lemma MergeKeepsNames(fs: FileSystem, tops: Tops, order: seq<Path>)
    ensures MergeFiles(fs, tops, order).Keys == tops.Keys
    decreases |order|
  {
  }

  lemma {:induction false} NoFileChanges(fs: FileSystem, tops: Tops, order: seq<Path>, name: string, key: string)
    requires name in tops && NoneGives(fs, order, name, key)
    ensures
      var r := MergeFiles(fs, tops, order);
      name in r && (key in r[name] <==> key in tops[name]) && (key in tops[name] ==> r[name][key] == tops[name][key])
    decreases |order|
  {
    if order != [] {
      assert order[0] in order;
      var next := if order[0] in fs && fs[order[0]].parsed.Conf?
                  then Merged(tops, fs[order[0]].parsed.sections) else tops;
      assert forall file | file in order[1..] :: file in order;
      NoFileChanges(fs, next, order[1..], name, key);
    }
  }

  /** Of the files merged in turn the last one that gives a setting decides it. */
  lemma {:induction false} LastFileDecides(
    fs: FileSystem, tops: Tops, order: seq<Path>, i: nat, name: string, key: string)
    requires name in tops && i < |order| && Gives(fs, order[i], name, key)
    requires NoneGives(fs, order[i + 1..], name, key)
    ensures
      var r := MergeFiles(fs, tops, order);
      name in r && key in r[name] && r[name][key] == Given(fs, order[i], name, key)
    decreases |order|
  {
    var next := if order[0] in fs && fs[order[0]].parsed.Conf?
                then Merged(tops, fs[order[0]].parsed.sections) else tops;
    if i == 0 {
      NoFileChanges(fs, next, order[1..], name, key);
    } else {
      assert order[1..][i - 1] == order[i] && order[1..][i..] == order[i + 1..];
      LastFileDecides(fs, next, order[1..], i - 1, name, key);
    }
  }

  /** After a load each setting is that of the last file read that gives it. */
  lemma SettingIsLastGiven(
    fs: FileSystem, hashes: Hashes, tops: Tops, file: Path, i: nat, name: string, key: string)
    requires Load(fs, hashes, tops, file).Ok? && name in tops
    requires
      var order := Load(fs, hashes, tops, file).value.order;
      i < |order| && Gives(fs, order[i], name, key) && NoneGives(fs, order[i + 1..], name, key)
    ensures
      var r := Load(fs, hashes, tops, file).value;
      name in r.tops && key in r.tops[name] && r.tops[name][key] == Given(fs, r.order[i], name, key)
  {
    LoadIsAFold(fs, hashes, tops, file);
    LastFileDecides(fs, tops, Load(fs, hashes, tops, file).value.order, i, name, key);
  }

  // ---------------------------------------------------------------------------------------------
  // What was read is complete
  // ---------------------------------------------------------------------------------------------

  /** Readable, every section known or the version, every known one a dictionary, both includes lists. */
  predicate Proper(fs: FileSystem, names: set<string>, file: Path) {
    && file in fs && fs[file].parsed.Conf?
    && (forall name | name in fs[file].parsed.sections :: name in names || name == "version")
    && (forall name | name in names && name in fs[file].parsed.sections :: fs[file].parsed.sections[name].Dict?)
    && fs[file].parsed.required.List? && fs[file].parsed.optional.List?
  }

  /** Proper, with its required includes read and its optional ones read or recorded as skipped. */
  predicate Served(fs: FileSystem, names: set<string>, file: Path, read: seq<Path>, hashes: Hashes) {
    && Proper(fs, names, file)
    && (forall p | p in fs[file].parsed.required.paths :: p in read)
    && (forall p | p in fs[file].parsed.optional.paths :: p in read || (p in hashes && hashes[p].None?))
  }

  ghost predicate AllServed(fs: FileSystem, names: set<string>, files: seq<Path>, read: seq<Path>, hashes: Hashes) {
    forall file | file in files :: Served(fs, names, file, read, hashes)
  }

  /** More has been read, and nothing skipped has been forgotten. */
  ghost predicate Grows(read: seq<Path>, hashes: Hashes, read': seq<Path>, hashes': Hashes) {
    && (forall p | p in read :: p in read')
    && (forall p | p in hashes && hashes[p].None? :: p in read' || (p in hashes' && hashes'[p].None?))
  }

  lemma StaysServed(fs: FileSystem, names: set<string>, files: seq<Path>,
                    read: seq<Path>, hashes: Hashes, read': seq<Path>, hashes': Hashes)
    requires AllServed(fs, names, files, read, hashes) && Grows(read, hashes, read', hashes')
    ensures AllServed(fs, names, files, read', hashes')
  {
    forall file | file in files ensures Served(fs, names, file, read', hashes') {
      assert Served(fs, names, file, read, hashes);
    }
  }

  /** All paths read, or, where none is required, recorded as skipped. */
  ghost predicate Handled(paths: seq<Path>, required: bool, read: seq<Path>, hashes: Hashes) {
    forall p | p in paths :: p in read || (!required && p in hashes && hashes[p].None?)
  }

  /** From sofar on to r: what came new is served, and the paths are handled. */
  ghost predicate Brings(
    fs: FileSystem, names: set<string>, sofar: Loaded, paths: seq<Path>, required: bool, r: Loaded) {
    && sofar.order <= r.order
    && Grows(sofar.order, sofar.hashes, r.order, r.hashes)
    && AllServed(fs, names, r.order[|sofar.order|..], r.order, r.hashes)
    && Handled(paths, required, r.order, r.hashes)
  }

  lemma BringsNothing(fs: FileSystem, names: set<string>, sofar: Loaded, required: bool)
    ensures Brings(fs, names, sofar, [], required, sofar)
  {
  }

  lemma BringsSkipped(fs: FileSystem, names: set<string>, sofar: Loaded, paths: seq<Path>, r: Loaded)
    requires paths != []
    requires Brings(fs, names, sofar.(hashes := sofar.hashes[paths[0] := None]), paths[1..], false, r)
    ensures Brings(fs, names, sofar, paths, false, r)
  {
    var skipped := sofar.hashes[paths[0] := None];
    assert forall p | p in sofar.hashes && sofar.hashes[p].None? :: p in skipped && skipped[p].None?;
    assert paths[0] in skipped && skipped[paths[0]].None?;
    assert forall p :: p in paths <==> p == paths[0] || p in paths[1..];
  }

  lemma BringsRead(fs: FileSystem, names: set<string>, sofar: Loaded, n: Loaded, paths: seq<Path>, required: bool,
                   r: Loaded)
    requires paths != [] && paths[0] in n.order
    requires AllServed(fs, names, n.order, n.order, n.hashes) && Grows([], sofar.hashes, n.order, n.hashes)
    requires Brings(fs, names, Loaded(n.hashes, n.tops, sofar.order + n.order), paths[1..], required, r)
    ensures Brings(fs, names, sofar, paths, required, r)
  {
    var next := Loaded(n.hashes, n.tops, sofar.order + n.order);
    assert Grows(n.order, n.hashes, r.order, r.hashes);
    StaysServed(fs, names, n.order, n.order, n.hashes, r.order, r.hashes);
    assert r.order[|sofar.order|..] == n.order + r.order[|next.order|..] by {
      assert r.order[..|next.order|] == next.order && r.order == next.order + r.order[|next.order|..];
    }
    assert forall p :: p in paths <==> p == paths[0] || p in paths[1..];
  }

  /**
   Everything a successful load has read is proper: its required includes have been read, its optional ones
   read or recorded as skipped.
   */
  lemma {:induction false} LoadServes(fs: FileSystem, hashes: Hashes, tops: Tops, file: Path)
    requires Load(fs, hashes, tops, file).Ok?
    ensures
      var r := Load(fs, hashes, tops, file).value;
      && r.order != [] && r.order[0] == file
      && AllServed(fs, tops.Keys, r.order, r.order, r.hashes)
      && Grows([], hashes, r.order, r.hashes)
    decreases Measure(fs, hashes, file), 1, 0
  {
    var conf := fs[file].parsed;
    var start := Start(fs, hashes, tops, file);
    var mid := LoadAll(fs, hashes, file, start, conf.required.paths, true).value;
    var r := LoadAll(fs, hashes, file, mid, conf.optional.paths, false).value;
    LoadAllServes(fs, hashes, file, start, conf.required.paths, true);
    LoadAllServes(fs, hashes, file, mid, conf.optional.paths, false);
    ProperWhenLoaded(fs, tops, file);
    FirstServed(fs, tops.Keys, file, start, mid, r);
    assert Grows([], hashes, r.order, r.hashes) by {
      forall p | p in hashes && hashes[p].None? ensures p in r.order || (p in r.hashes && r.hashes[p].None?) {
        assert p == file || (p in start.hashes && start.hashes[p].None?);
        assert file in start.order;
      }
    }
  }

  lemma ProperWhenLoaded(fs: FileSystem, tops: Tops, file: Path)
    requires file in fs && fs[file].parsed.Conf? && Mergeable(tops, fs[file].parsed.sections)
    requires fs[file].parsed.required.List? && fs[file].parsed.optional.List?
    ensures Proper(fs, tops.Keys, file)
  {
    forall name | name in tops && name in fs[file].parsed.sections ensures fs[file].parsed.sections[name].Dict? {
      assert EntriesFor(fs[file].parsed.sections, name).Ok?;
    }
  }

  lemma FirstServed(fs: FileSystem, names: set<string>, file: Path, start: Loaded, mid: Loaded, r: Loaded)
    requires start.order == [file] && Proper(fs, names, file)
    requires Brings(fs, names, start, fs[file].parsed.required.paths, true, mid)
    requires Brings(fs, names, mid, fs[file].parsed.optional.paths, false, r)
    ensures r.order != [] && r.order[0] == file && AllServed(fs, names, r.order, r.order, r.hashes)
  {
    assert mid.order[0] == file && r.order[0] == file;
    StaysServed(fs, names, mid.order[1..], mid.order, mid.hashes, r.order, r.hashes);
    forall f | f in r.order ensures Served(fs, names, f, r.order, r.hashes) {
      assert r.order == [file] + mid.order[1..] + r.order[|mid.order|..];
    }
  }

  lemma {:induction false} LoadAllServes(
    fs: FileSystem, hashes: Hashes, file: Path, sofar: Loaded, paths: seq<Path>, required: bool)
    requires file in fs && file in sofar.hashes && hashes.Keys <= sofar.hashes.Keys
    requires LoadAll(fs, hashes, file, sofar, paths, required).Ok?
    ensures Brings(fs, sofar.tops.Keys, sofar, paths, required,
                   LoadAll(fs, hashes, file, sofar, paths, required).value)
    decreases Measure(fs, hashes, file), 0, |paths|
  {
    var names, r := sofar.tops.Keys, LoadAll(fs, hashes, file, sofar, paths, required).value;
    if paths == [] {
      BringsNothing(fs, names, sofar, required);
    } else {
      NestedCallShrinks(fs, hashes, file, sofar.hashes, paths[0]);
      match Load(fs, sofar.hashes, sofar.tops, paths[0])
      case Ok(n) =>
        LoadServes(fs, sofar.hashes, sofar.tops, paths[0]);
        LoadAllServes(fs, hashes, file, Loaded(n.hashes, n.tops, sofar.order + n.order), paths[1..], required);
        BringsRead(fs, names, sofar, n, paths, required, r);
      case Raised =>
        LoadAllServes(fs, hashes, file, sofar.(hashes := sofar.hashes[paths[0] := None]), paths[1..], required);
        BringsSkipped(fs, names, sofar, paths, r);
    }
  }

  /** Without includes exactly the proper files load, and each leaves its own hash and settings. */
  lemma PlainFileLoadsIff(fs: FileSystem, hashes: Hashes, tops: Tops, file: Path)
    requires file in fs && fs[file].parsed.Conf?
    requires fs[file].parsed.required == List([]) && fs[file].parsed.optional == List([])
    ensures Load(fs, hashes, tops, file).Ok? <==> Proper(fs, tops.Keys, file)
    ensures Load(fs, hashes, tops, file).Ok? ==>
              var r := Load(fs, hashes, tops, file).value;
              r.hashes == hashes[file := Some(fs[file].hash)] && r.order == [file]
  {
    var sections := fs[file].parsed.sections;
    if Proper(fs, tops.Keys, file) {
      assert Mergeable(tops, sections);
    }
    if Mergeable(tops, sections) {
      ProperWhenLoaded(fs, tops, file);
      var start := Start(fs, hashes, tops, file);
      assert LoadAll(fs, hashes, file, start, [], true) == Ok(start);
      assert LoadAll(fs, hashes, file, start, [], false) == Ok(start);
    }
  }
}
