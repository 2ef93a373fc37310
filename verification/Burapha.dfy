/** The Burapha-TH handwriting loader: configuration names that carry the
    subset, zero-padded label tables, the scan of per-class directories into
    an insertion-ordered label -> files dictionary, and the generator that
    flattens that dictionary into sequentially numbered examples.
 */
module Burapha {
  import opened Common

  const DatasetName := "burapha_th"
  const Subsets: seq<string> := ["character", "digit", "syllable"]
  const SourceVersion := "1.0.0"
  const SeaCrowdVersion := "2024.06.20"
  const SourceSchema := "source"
  const ImTextSchema := "seacrowd_imtext"
  const DefaultConfigName := DatasetName + "_digit_source"

  // ---------------------------------------------------------------------
  // Configurations
  // ---------------------------------------------------------------------

  /** `config_constructor(subset, schema, version)`. */
  function ConfigConstructor(subset: string, schema: string, version: string): (c: Config)
    ensures c.schema == schema && c.version == version
    ensures c.name == c.subsetId + "_" + schema
  {
    Config(DatasetName + "_" + subset + "_" + schema,
           version,
           DatasetName + " " + subset + " " + schema + " schema",
           schema,
           DatasetName + "_" + subset)
  }

  /** `self.config.subset_id.split("_")[2]`, an `IndexError` when the
      subset id has fewer than three pieces. */
  function TaskOf(c: Config): (r: Result<string>)
    ensures r.Ok? ==> '_' !in r.value
    ensures r.Err? ==> r.error == IndexError
  {
    var parts := Split(c.subsetId, '_');
    if |parts| > 2 then Ok(parts[2]) else Err(IndexError)
  }

  /** The subset passed to `config_constructor` is read back out of the
      subset id exactly when it contains no underscore. */
  lemma ConfigTaskRoundTrip(subset: string, schema: string, version: string)
    ensures TaskOf(ConfigConstructor(subset, schema, version)) == Ok(subset) <==> '_' !in subset
  {
    var id := ConfigConstructor(subset, schema, version).subsetId;
    assert DatasetName == "burapha" + ['_'] + "th";
    assert id == "burapha" + ['_'] + "th" + ['_'] + subset;
    ThirdPiece("burapha", "th", subset, '_');
    if '_' !in subset {
      SplitNoSep(subset, '_');
    }
  }

  /** The third piece of `a_b_x` is the first piece of `x`. */
  lemma ThirdPiece(a: string, b: string, x: string, sep: char)
    requires sep !in a && sep !in b
    ensures |Split(a + [sep] + b + [sep] + x, sep)| > 2
    ensures Split(a + [sep] + b + [sep] + x, sep)[2] == Split(x, sep)[0]
  {
    var rest := b + [sep] + x;
    assert a + [sep] + b + [sep] + x == a + [sep] + rest;
    SplitFirst(a, sep, rest);
    SplitFirst(b, sep, x);
  }

  /** One config per subset, all with the same schema and version. */
  function ConfigsFor(subsets: seq<string>, schema: string, version: string): (cs: seq<Config>)
    ensures |cs| == |subsets|
  {
    seq(|subsets|, i requires 0 <= i < |subsets| => ConfigConstructor(subsets[i], schema, version))
  }

  /** `BUILDER_CONFIGS`: a source config per subset, then a
      `seacrowd_imtext` config per subset. */
  function BuilderConfigs(): seq<Config>
  {
    ConfigsFor(Subsets, SourceSchema, SourceVersion) + ConfigsFor(Subsets, ImTextSchema, SeaCrowdVersion)
  }

  /** Each config built for a subset without underscores carries the given
      schema and version and parses back to its subset. */
  lemma ConfigsForTasks(subsets: seq<string>, schema: string, version: string)
    requires forall i :: 0 <= i < |subsets| ==> '_' !in subsets[i]
    ensures forall i :: 0 <= i < |subsets| ==>
      && ConfigsFor(subsets, schema, version)[i].schema == schema
      && ConfigsFor(subsets, schema, version)[i].version == version
      && TaskOf(ConfigsFor(subsets, schema, version)[i]) == Ok(subsets[i])
  {
    forall i | 0 <= i < |subsets|
      ensures TaskOf(ConfigsFor(subsets, schema, version)[i]) == Ok(subsets[i])
    {
      ConfigTaskRoundTrip(subsets[i], schema, version);
    }
  }

  /** Three source and three `seacrowd_imtext` configs; each one's task,
      parsed back out of its subset id, is the subset it was built for. */
  lemma BuilderConfigsShape()
    ensures |BuilderConfigs()| == 6
    ensures forall i :: 0 <= i < 3 ==>
      && BuilderConfigs()[i].schema == SourceSchema
      && BuilderConfigs()[i].version == SourceVersion
      && TaskOf(BuilderConfigs()[i]) == Ok(Subsets[i])
    ensures forall i :: 3 <= i < 6 ==>
      && BuilderConfigs()[i].schema == ImTextSchema
      && BuilderConfigs()[i].version == SeaCrowdVersion
      && TaskOf(BuilderConfigs()[i]) == Ok(Subsets[i - 3])
  {
    var src := ConfigsFor(Subsets, SourceSchema, SourceVersion);
    var uni := ConfigsFor(Subsets, ImTextSchema, SeaCrowdVersion);
    assert forall i :: 0 <= i < |Subsets| ==> '_' !in Subsets[i];
    ConfigsForTasks(Subsets, SourceSchema, SourceVersion);
    ConfigsForTasks(Subsets, ImTextSchema, SeaCrowdVersion);
    assert forall i :: 0 <= i < 3 ==> BuilderConfigs()[i] == src[i];
    assert forall i :: 3 <= i < 6 ==> BuilderConfigs()[i] == uni[i - 3];
  }

  /** The default config name is the name of a declared config. */
  lemma DefaultConfigDeclared()
    ensures exists i :: 0 <= i < |BuilderConfigs()| && BuilderConfigs()[i].name == DefaultConfigName
  {
    assert BuilderConfigs()[1] == ConfigConstructor("digit", SourceSchema, SourceVersion);
    assert BuilderConfigs()[1].name == DefaultConfigName;
  }

  // ---------------------------------------------------------------------
  // Label tables and _info
  // ---------------------------------------------------------------------

  /** `label_chr_dig`: "00" .. "77". */
  const LabelChrDig: seq<string> := PaddedTable(78, 2)
  /** `label_syl`: "000" .. "319". */
  const LabelSyl: seq<string> := PaddedTable(320, 3)

  /** The class table a task uses: the two-digit table for character and
      digit, the three-digit table for anything else. */
  function LabelNames(task: string): seq<string>
  {
    if task == "character" || task == "digit" then LabelChrDig else LabelSyl
  }

  /** Entry `i` of a zero-padded table is `i` written in exactly `width`
      digits, and `index` maps it back to `i`. */
  lemma {:induction false} PaddedTableIndex(count: nat, width: nat, i: nat)
    requires count <= Pow10(width) && width >= 1 && i < count
    ensures |PaddedTable(count, width)[i]| == width
    ensures AllDigits(PaddedTable(count, width)[i]) && DigitsValue(PaddedTable(count, width)[i]) == i
    ensures IndexOf(PaddedTable(count, width), PaddedTable(count, width)[i]) == Some(i)
  {
    var t := PaddedTable(count, width);
    PaddedLength(i, width);
    PaddedRoundTrip(i, width);
    forall a, b | 0 <= a < b < count
      ensures t[a] != t[b]
    {
      PaddedRoundTrip(a, width);
      PaddedRoundTrip(b, width);
    }
    IndexOfDistinct(t, i);
  }

  /** Only strings of `width` digits whose value is below `count` are found
      in a padded table; any other key is a lookup failure. */
  lemma PaddedTableMembers(count: nat, width: nat, key: string)
    requires count <= Pow10(width) && width >= 1
    requires key in PaddedTable(count, width)
    ensures |key| == width && AllDigits(key) && DigitsValue(key) < count
  {
    var i := IndexOf(PaddedTable(count, width), key).value;
    PaddedTableIndex(count, width, i);
  }

  /** The two tables have 78 and 320 entries; entry `i` is `i` zero-padded
      to two or three digits, and its index is `i`. */
  lemma LabelTablesRoundTrip()
    ensures |LabelChrDig| == 78 && |LabelSyl| == 320
    ensures forall i :: 0 <= i < 78 ==>
      |LabelChrDig[i]| == 2 && DigitsValue(LabelChrDig[i]) == i && IndexOf(LabelChrDig, LabelChrDig[i]) == Some(i)
    ensures forall i :: 0 <= i < 320 ==>
      |LabelSyl[i]| == 3 && DigitsValue(LabelSyl[i]) == i && IndexOf(LabelSyl, LabelSyl[i]) == Some(i)
  {
    assert Pow10(2) == 100;
    assert Pow10(3) == 1000;
    forall i | 0 <= i < 78
      ensures |LabelChrDig[i]| == 2 && DigitsValue(LabelChrDig[i]) == i && IndexOf(LabelChrDig, LabelChrDig[i]) == Some(i)
    {
      PaddedTableIndex(78, 2, i);
    }
    forall i | 0 <= i < 320
      ensures |LabelSyl[i]| == 3 && DigitsValue(LabelSyl[i]) == i && IndexOf(LabelSyl, LabelSyl[i]) == Some(i)
    {
      PaddedTableIndex(320, 3, i);
    }
  }

  datatype Features =
    | SourceFeatures(labelNames: seq<string>)
    | ImageTextFeatures(labelNames: seq<string>)

  /** `_info`: the task is parsed first, then the schema selects the
      feature set; any other schema raises `NotImplementedError`. */
  function Info(c: Config): (r: Result<Features>)
    ensures r.Ok? <==> TaskOf(c).Ok? && (c.schema == SourceSchema || c.schema == ImTextSchema)
    ensures r.Ok? ==> r.value.labelNames == LabelNames(TaskOf(c).value)
    ensures r.Ok? ==> (r.value.SourceFeatures? <==> c.schema == SourceSchema)
    ensures TaskOf(c).Ok? && c.schema != SourceSchema && c.schema != ImTextSchema ==> r == Err(NotImplementedError)
  {
    var task :- TaskOf(c);
    if c.schema == SourceSchema then Ok(SourceFeatures(LabelNames(task)))
    else if c.schema == ImTextSchema then Ok(ImageTextFeatures(LabelNames(task)))
    else Err(NotImplementedError)
  }

  /** Every declared config has a feature set, built on the label table of
      its own subset: 78 two-digit labels for character and digit, 320
      three-digit labels for syllable. */
  lemma BuilderConfigsInfo()
    ensures forall i :: 0 <= i < 3 ==> Info(BuilderConfigs()[i]) == Ok(SourceFeatures(LabelNames(Subsets[i])))
    ensures forall i :: 3 <= i < 6 ==> Info(BuilderConfigs()[i]) == Ok(ImageTextFeatures(LabelNames(Subsets[i - 3])))
    ensures |LabelNames(Subsets[0])| == 78 && |LabelNames(Subsets[1])| == 78 && |LabelNames(Subsets[2])| == 320
  {
    BuilderConfigsShape();
    forall i | 0 <= i < 6
      ensures Info(BuilderConfigs()[i]).Ok?
    {
      var c := BuilderConfigs()[i];
      assert TaskOf(c).Ok? && (c.schema == SourceSchema || c.schema == ImTextSchema);
    }
    assert Subsets[2] != "character" && Subsets[2] != "digit";
  }

  // ---------------------------------------------------------------------
  // Directory scan (the loop in _split_generators)
  // ---------------------------------------------------------------------

  /** One child of the split directory, with the names `os.listdir` gives
      for its contents. */
  datatype DirEntry = DirEntry(name: string, files: seq<string>)

  /** A Python dict: keys in insertion order, each at most once. */
  type Dict<V> = seq<(string, V)>

  predicate DistinctKeys<V>(d: Dict<V>)
  {
    forall i, j :: 0 <= i < j < |d| ==> d[i].0 != d[j].0
  }

  /** `d.get(k)`. */
  function Get<V>(d: Dict<V>, k: string): Option<V>
  {
    if |d| == 0 then None
    else if d[0].0 == k then Some(d[0].1)
    else Get(d[1..], k)
  }

  /** `d[k] = v`: an existing key keeps its place and only its value is
      replaced; a new key is appended. */
  function Set<V>(d: Dict<V>, k: string, v: V): Dict<V>
  {
    if |d| == 0 then [(k, v)]
    else if d[0].0 == k then [(k, v)] + d[1..]
    else [d[0]] + Set(d[1..], k, v)
  }

  /** A key is found exactly when some entry carries it, and then with the
      value of that entry. */
  lemma {:induction false} GetFinds<V>(d: Dict<V>, k: string)
    ensures Get(d, k).None? <==> forall i :: 0 <= i < |d| ==> d[i].0 != k
    ensures Get(d, k).Some? ==> exists i :: 0 <= i < |d| && d[i] == (k, Get(d, k).value)
  {
    if |d| > 0 && d[0].0 != k {
      GetFinds(d[1..], k);
      assert forall i :: 1 <= i < |d| ==> d[i] == d[1..][i - 1];
      if Get(d, k).Some? {
        var i :| 0 <= i < |d[1..]| && d[1..][i] == (k, Get(d, k).value);
        assert d[i + 1] == d[1..][i];
      }
    }
  }

  /** After `d[k] = v`, `k` holds `v` and every other key what it held. */
  lemma {:induction false} SetGet<V>(d: Dict<V>, k: string, v: V, k': string)
    ensures Get(Set(d, k, v), k') == if k' == k then Some(v) else Get(d, k')
  {
    if |d| > 0 && d[0].0 != k {
      SetGet(d[1..], k, v, k');
      assert Set(d, k, v)[1..] == Set(d[1..], k, v);
    } else if |d| > 0 {
      assert Set(d, k, v)[1..] == d[1..];
    }
  }

  /** `d[k] = v` keeps every existing key in its position, adds at most
      one entry at the end, and keeps keys distinct. */
  lemma SetShape<V>(d: Dict<V>, k: string, v: V)
    requires DistinctKeys(d)
    ensures var r := Set(d, k, v);
      && |r| == (if exists i :: 0 <= i < |d| && d[i].0 == k then |d| else |d| + 1)
      && (forall i :: 0 <= i < |d| ==> r[i].0 == d[i].0)
      && DistinctKeys(r)
  {
    SetLength(d, k, v);
    SetKeepsKeys(d, k, v);
    var r := Set(d, k, v);
    if exists i :: 0 <= i < |d| && d[i].0 == k {
      assert forall i, j :: 0 <= i < j < |r| ==> r[i].0 == d[i].0 && r[j].0 == d[j].0;
    } else {
      SetAppends(d, k, v);
      assert forall i :: 0 <= i < |d| ==> r[i] == d[i];
    }
  }

  /** `d[k] = v` grows the dictionary exactly when `k` is new. */
  lemma {:induction false} SetLength<V>(d: Dict<V>, k: string, v: V)
    ensures |Set(d, k, v)| == (if exists i :: 0 <= i < |d| && d[i].0 == k then |d| else |d| + 1)
  {
    if |d| > 0 && d[0].0 != k {
      var t := d[1..];
      SetLength(t, k, v);
      if exists i :: 0 <= i < |d| && d[i].0 == k {
        var i :| 0 <= i < |d| && d[i].0 == k;
        assert t[i - 1].0 == k;
      }
      if exists i :: 0 <= i < |t| && t[i].0 == k {
        var i :| 0 <= i < |t| && t[i].0 == k;
        assert d[i + 1].0 == k;
      }
    }
  }

  /** `d[k] = v` keeps every existing key in its position. */
  lemma {:induction false} SetKeepsKeys<V>(d: Dict<V>, k: string, v: V)
    ensures |Set(d, k, v)| >= |d|
    ensures forall i :: 0 <= i < |d| ==> Set(d, k, v)[i].0 == d[i].0
  {
    if |d| > 0 && d[0].0 != k {
      var t := d[1..];
      SetKeepsKeys(t, k, v);
      var r := Set(d, k, v);
      assert r == [d[0]] + Set(t, k, v);
      forall i | 1 <= i < |d| ensures r[i].0 == d[i].0 {
        assert r[i] == Set(t, k, v)[i - 1];
        assert t[i - 1] == d[i];
      }
    }
  }

  /** A key not yet present is appended as the last entry. */
  lemma {:induction false} SetAppends<V>(d: Dict<V>, k: string, v: V)
    requires forall i :: 0 <= i < |d| ==> d[i].0 != k
    ensures Set(d, k, v) == d + [(k, v)]
  {
    if |d| > 0 {
      SetAppends(d[1..], k, v);
      assert d == [d[0]] + d[1..];
    }
  }

  /** `dir_name.split("-")[0]`. */
  function DirLabel(name: string): string
  {
    Split(name, '-')[0]
  }

  /** A directory's label is the part of its name before the first `-`. */
  lemma DirLabelIsPrefix(name: string)
    ensures var l := DirLabel(name);
      && '-' !in l && |l| <= |name| && name[..|l|] == l
      && (|l| < |name| ==> name[|l|] == '-')
  {
    SplitHead(name, '-');
  }

  /** `[os.path.join(path, dir_name, f) for f in os.listdir(...)]`. */
  function FilePaths(path: string, e: DirEntry): (ps: seq<string>)
    ensures |ps| == |e.files|
  {
    seq(|e.files|, i requires 0 <= i < |e.files| => PathJoin(PathJoin(path, e.name), e.files[i]))
  }

  /** The dictionary left by the assignments `d[k] = v` of `pairs`, made
      in order on an empty dictionary. */
  function Assign<V>(pairs: seq<(string, V)>): Dict<V>
    decreases |pairs|
  {
    if |pairs| == 0 then []
    else Set(Assign(pairs[..|pairs| - 1]), pairs[|pairs| - 1].0, pairs[|pairs| - 1].1)
  }

  /** The last assignment decides what a key holds afterwards. */
  lemma AssignStep<V>(pairs: seq<(string, V)>, k: string)
    requires |pairs| > 0
    ensures var n := |pairs| - 1;
      Get(Assign(pairs), k) == if pairs[n].0 == k then Some(pairs[n].1) else Get(Assign(pairs[..n]), k)
  {
    var n := |pairs| - 1;
    SetGet(Assign(pairs[..n]), pairs[n].0, pairs[n].1, k);
  }

  /** After the assignments a key is present exactly when it was assigned. */
  lemma {:induction false} AssignKeys<V>(pairs: seq<(string, V)>, k: string)
    ensures Get(Assign(pairs), k).Some? <==> exists i :: 0 <= i < |pairs| && pairs[i].0 == k
    decreases |pairs|
  {
    if |pairs| > 0 {
      var n := |pairs| - 1;
      var init := pairs[..n];
      AssignKeys(init, k);
      AssignStep(pairs, k);
      if exists i :: 0 <= i < |pairs| && pairs[i].0 == k {
        var i :| 0 <= i < |pairs| && pairs[i].0 == k;
        if i < n {
          assert init[i] == pairs[i];
        }
      }
      if exists i :: 0 <= i < |init| && init[i].0 == k {
        var i :| 0 <= i < |init| && init[i].0 == k;
        assert pairs[i] == init[i];
      }
    }
  }

  /** A key present after the assignments holds the value of its LAST
      assignment. */
  lemma {:induction false} AssignLast<V>(pairs: seq<(string, V)>, k: string)
    requires Get(Assign(pairs), k).Some?
    ensures exists i ::
      (0 <= i < |pairs| && pairs[i] == (k, Get(Assign(pairs), k).value)
       && forall j :: i < j < |pairs| ==> pairs[j].0 != k)
    decreases |pairs|
  {
    var n := |pairs| - 1;
    var init := pairs[..n];
    AssignStep(pairs, k);
    var v := Get(Assign(pairs), k).value;
    if pairs[n].0 == k {
      assert pairs[n] == (k, v);
    } else {
      AssignLast(init, k);
      var i :| 0 <= i < |init| && init[i] == (k, v) && forall j :: i < j < |init| ==> init[j].0 != k;
      assert pairs[i] == (k, v);
      assert forall j :: i < j < n ==> pairs[j] == init[j];
    }
  }

  /** The assignments leave each key at most once. */
  lemma {:induction false} AssignDistinct<V>(pairs: seq<(string, V)>)
    ensures DistinctKeys(Assign(pairs))
    decreases |pairs|
  {
    if |pairs| > 0 {
      var n := |pairs| - 1;
      AssignDistinct(pairs[..n]);
      SetShape(Assign(pairs[..n]), pairs[n].0, pairs[n].1);
    }
  }

  /** The assignments leave no more keys than there were assignments. */
  lemma {:induction false} AssignLength<V>(pairs: seq<(string, V)>)
    ensures |Assign(pairs)| <= |pairs|
    decreases |pairs|
  {
    if |pairs| > 0 {
      var n := |pairs| - 1;
      AssignLength(pairs[..n]);
      SetLength(Assign(pairs[..n]), pairs[n].0, pairs[n].1);
    }
  }

  /** `(label, file_names)` for each listed directory, in listing order. */
  function Assignments(path: string, listing: seq<DirEntry>): (ps: seq<(string, seq<string>)>)
    ensures |ps| == |listing|
  {
    seq(|listing|, i requires 0 <= i < |listing| => (DirLabel(listing[i].name), FilePaths(path, listing[i])))
  }

  /** The dictionary built from a directory listing: for each directory in
      listing order, `data_pair[label] = file_names`. */
  function Scan(path: string, listing: seq<DirEntry>): (d: Dict<seq<string>>)
    ensures DistinctKeys(d)
    ensures |d| <= |listing|
  {
    AssignDistinct(Assignments(path, listing));
    AssignLength(Assignments(path, listing));
    Assign(Assignments(path, listing))
  }

  predicate HasLabel(listing: seq<DirEntry>, k: string)
  {
    exists i :: 0 <= i < |listing| && DirLabel(listing[i].name) == k
  }

  /** The scan holds exactly the labels of the listed directories, and
      each label maps to the files of the LAST directory carrying it. */
  lemma ScanContents(path: string, listing: seq<DirEntry>, k: string)
    ensures Get(Scan(path, listing), k).Some? <==> HasLabel(listing, k)
    ensures Get(Scan(path, listing), k).Some? ==>
      exists i :: 0 <= i < |listing| && DirLabel(listing[i].name) == k
        && Get(Scan(path, listing), k).value == FilePaths(path, listing[i])
        && forall j :: i < j < |listing| ==> DirLabel(listing[j].name) != k
  {
    var ps := Assignments(path, listing);
    AssignKeys(ps, k);
    if HasLabel(listing, k) {
      var i :| 0 <= i < |listing| && DirLabel(listing[i].name) == k;
      assert ps[i].0 == k;
    }
    if Get(Scan(path, listing), k).Some? {
      AssignLast(ps, k);
      var v := Get(Scan(path, listing), k).value;
      var i :| 0 <= i < |ps| && ps[i] == (k, v) && forall j :: i < j < |ps| ==> ps[j].0 != k;
      assert forall j :: i < j < |listing| ==> DirLabel(listing[j].name) == ps[j].0;
    }
  }

  /** A file listed in a directory appears under its label by its full path:
      the path starts with the split directory and ends with the file's name. */
  lemma FilePathsUnderRoot(path: string, e: DirEntry, i: nat)
    requires i < |e.files|
    requires e.name != [] && '/' !in e.name && e.files[i] != [] && '/' !in e.files[i]
    ensures var p := FilePaths(path, e)[i];
      |p| >= |path| && p[..|path|] == path && Basename(p) == e.files[i]
  {
    var dir := PathJoin(path, e.name);
    BasenamePathJoin(dir, e.files[i]);
    BasenameOfName(e.files[i]);
  }

  // ---------------------------------------------------------------------
  // _split_generators
  // ---------------------------------------------------------------------

  datatype SplitGenerator = SplitGenerator(name: string, filepath: Dict<seq<string>>, split: string)

  /** The sub-directory of each downloaded archive: `train`/`test` for the
      character and digit subsets, `train-ori`/`test-ori` otherwise. */
  function SplitDirs(task: string): (string, string)
  {
    if task == "character" || task == "digit" then ("train", "test") else ("train-ori", "test-ori")
  }

  /** `_split_generators` as written. `trainListing` is what the scan sees
      under the train directory; `testListing` is accepted but never read,
      because the test split is handed the dictionary scanned from the train
      directory. A task missing from the URL table is a `KeyError`. */
  function SplitGenerators(c: Config, trainRoot: string, testRoot: string,
                           trainListing: seq<DirEntry>, testListing: seq<DirEntry>): (r: Result<seq<SplitGenerator>>)
    ensures r.Ok? <==> TaskOf(c).Ok? && TaskOf(c).value in Subsets
    ensures TaskOf(c).Err? ==> r == Err(IndexError)
    ensures TaskOf(c).Ok? && TaskOf(c).value !in Subsets ==> r == Err(KeyError)
    ensures r.Ok? ==> (|r.value| == 2
      && r.value[0].name == "train" && r.value[0].split == "train"
      && r.value[1].name == "test" && r.value[1].split == "test")
  {
    var task :- TaskOf(c);
    if task !in Subsets then Err(KeyError)
    else
      var pairs := Scan(PathJoin(trainRoot, SplitDirs(task).0), trainListing);
      Ok([SplitGenerator("train", pairs, "train"), SplitGenerator("test", pairs, "test")])
  }

  /** The test split receives the very dictionary of the train split and
      cannot see the test archive at all. */
  lemma TestSplitIsTrainScan(c: Config, trainRoot: string, testRoot: string, testRoot': string,
                             trainListing: seq<DirEntry>, testListing: seq<DirEntry>, testListing': seq<DirEntry>)
    requires SplitGenerators(c, trainRoot, testRoot, trainListing, testListing).Ok?
    ensures var gs := SplitGenerators(c, trainRoot, testRoot, trainListing, testListing).value;
      gs[1].filepath == gs[0].filepath
      && gs[0].filepath == Scan(PathJoin(trainRoot, SplitDirs(TaskOf(c).value).0), trainListing)
    ensures SplitGenerators(c, trainRoot, testRoot', trainListing, testListing')
         == SplitGenerators(c, trainRoot, testRoot, trainListing, testListing)
  {
  }

  /** `_split_generators` with the test split scanned from the test
      directory, as the split name promises. */
  function SplitGeneratorsScanningTest(c: Config, trainRoot: string, testRoot: string,
                                       trainListing: seq<DirEntry>, testListing: seq<DirEntry>): (r: Result<seq<SplitGenerator>>)
    ensures r.Ok? <==> TaskOf(c).Ok? && TaskOf(c).value in Subsets
    ensures TaskOf(c).Err? ==> r == Err(IndexError)
    ensures TaskOf(c).Ok? && TaskOf(c).value !in Subsets ==> r == Err(KeyError)
    ensures r.Ok? ==> (|r.value| == 2
      && r.value[0].name == "train" && r.value[0].split == "train"
      && r.value[1].name == "test" && r.value[1].split == "test")
  {
    var task :- TaskOf(c);
    if task !in Subsets then Err(KeyError)
    else
      var (trainDir, testDir) := SplitDirs(task);
      Ok([SplitGenerator("train", Scan(PathJoin(trainRoot, trainDir), trainListing), "train"),
          SplitGenerator("test", Scan(PathJoin(testRoot, testDir), testListing), "test")])
  }

  /** With the test directory scanned, the test split holds exactly the
      labels of the test directories, every test file sits under the test
      directory, and the train listing has no influence on it. */
  lemma TestSplitFromTestListing(c: Config, trainRoot: string, testRoot: string,
                                 trainListing: seq<DirEntry>, trainListing': seq<DirEntry>, testListing: seq<DirEntry>, k: string)
    requires SplitGeneratorsScanningTest(c, trainRoot, testRoot, trainListing, testListing).Ok?
    requires forall e :: e in testListing ==>
      (e.name != [] && '/' !in e.name && forall f :: f in e.files ==> f != [] && '/' !in f)
    ensures var gs := SplitGeneratorsScanningTest(c, trainRoot, testRoot, trainListing, testListing).value;
      var testPath := PathJoin(testRoot, SplitDirs(TaskOf(c).value).1);
      && (Get(gs[1].filepath, k).Some? <==> HasLabel(testListing, k))
      && (Get(gs[1].filepath, k).Some? ==> forall p :: p in Get(gs[1].filepath, k).value ==> |p| >= |testPath| && p[..|testPath|] == testPath)
    ensures SplitGeneratorsScanningTest(c, trainRoot, testRoot, trainListing', testListing).Ok?
      && SplitGeneratorsScanningTest(c, trainRoot, testRoot, trainListing', testListing).value[1]
      == SplitGeneratorsScanningTest(c, trainRoot, testRoot, trainListing, testListing).value[1]
  {
    var task := TaskOf(c).value;
    var testPath := PathJoin(testRoot, SplitDirs(task).1);
    var d := Scan(testPath, testListing);
    ScanContents(testPath, testListing, k);
    if Get(d, k).Some? {
      var i :| 0 <= i < |testListing| && DirLabel(testListing[i].name) == k && Get(d, k).value == FilePaths(testPath, testListing[i]);
      var e := testListing[i];
      assert e in testListing;
      forall p | p in Get(d, k).value
        ensures |p| >= |testPath| && p[..|testPath|] == testPath
      {
        var j :| 0 <= j < |e.files| && FilePaths(testPath, e)[j] == p;
        assert e.files[j] in e.files;
        FilePathsUnderRoot(testPath, e, j);
      }
    }
  }

  /** A concrete listing that shows the discrepancy: the train archive has
      class directory `00-a`, the test archive only `01-b`; for the digit
      subset (the default config, among others) the split named test holds
      label `00` and not `01`, while scanning the test directory yields
      `01`. */
  lemma TestSplitCounterexample(c: Config)
    requires TaskOf(c) == Ok("digit")
    ensures var train := [DirEntry("00-a", ["x.png"])];
      var test := [DirEntry("01-b", ["y.png"])];
      var asWritten := SplitGenerators(c, "tr", "te", train, test);
      var scanned := SplitGeneratorsScanningTest(c, "tr", "te", train, test);
      && asWritten.Ok? && scanned.Ok?
      && Get(asWritten.value[1].filepath, "00").Some? && Get(asWritten.value[1].filepath, "01").None?
      && Get(scanned.value[1].filepath, "01").Some? && Get(scanned.value[1].filepath, "00").None?
  {
    CounterexampleLabels();
    CounterexampleScan(PathJoin("tr", "train"), "00-a", "x.png", "00", "01");
    CounterexampleScan(PathJoin("te", "test"), "01-b", "y.png", "01", "00");
  }

  /** The labels of the two directories of the counterexample. */
  lemma CounterexampleLabels()
    ensures DirLabel("00-a") == "00" && DirLabel("01-b") == "01"
  {
    assert "00-a" == "00" + ['-'] + "a";
    assert "01-b" == "01" + ['-'] + "b";
    SplitFirst("00", '-', "a");
    SplitFirst("01", '-', "b");
  }

  /** Scanning a listing of one directory offers its label and no other. */
  lemma CounterexampleScan(path: string, name: string, file: string, key: string, other: string)
    requires DirLabel(name) == key && key != other
    ensures Get(Scan(path, [DirEntry(name, [file])]), key).Some?
    ensures Get(Scan(path, [DirEntry(name, [file])]), other).None?
  {
    var listing := [DirEntry(name, [file])];
    assert DirLabel(listing[0].name) == key;
    ScanContents(path, listing, key);
    ScanContents(path, listing, other);
  }

  // ---------------------------------------------------------------------
  // _generate_examples
  // ---------------------------------------------------------------------

  datatype Example =
    | SourceExample(id: string, imagePath: string, labelCodes: seq<nat>)
    | UnifiedExample(example: ImageTextExample<nat>)

  /** `for key, imgs in filepath.items(): for img in imgs`: the (label,
      image) pairs in dictionary order. */
  function Items(d: Dict<seq<string>>): seq<(string, string)>
  {
    if |d| == 0 then []
    else seq(|d[0].1|, i requires 0 <= i < |d[0].1| => (d[0].0, d[0].1[i])) + Items(d[1..])
  }

  /** Total number of image files held in the dictionary. */
  function TotalFiles(d: Dict<seq<string>>): nat
  {
    if |d| == 0 then 0 else |d[0].1| + TotalFiles(d[1..])
  }

  lemma {:induction false} ItemsCount(d: Dict<seq<string>>)
    ensures |Items(d)| == TotalFiles(d)
  {
    if |d| > 0 {
      ItemsCount(d[1..]);
    }
  }

  /** `e` is the example the generator builds for image `img` of label
      `key` at counter `n`: its id is `str(n)`, it carries the image, and its
      single label is the first position of `table` holding `key`, as
      `list.index` finds it. */
  predicate Describes(schema: string, table: seq<string>, key: string, img: string, n: nat, e: Example)
  {
    match e
    case SourceExample(id, path, codes) =>
      && schema == SourceSchema && id == NatToString(n) && path == img
      && |codes| == 1 && IndexOf(table, key) == Some(codes[0])
    case UnifiedExample(x) =>
      && schema == ImTextSchema && x.id == NatToString(n) && x.imagePaths == [img]
      && x.texts == None && x.context == None
      && |x.labels| == 1 && IndexOf(table, key) == Some(x.labels[0])
  }

  predicate KnownSchema(schema: string)
  {
    schema == SourceSchema || schema == ImTextSchema
  }

  /** The generator loop from counter `n` on, looking labels up in `table`.
      Under a known schema each image yields one example; a key missing
      from the table raises `ValueError` at its first image. Under any other
      schema the counter still advances but nothing is yielded. */
  function Generate(schema: string, table: seq<string>, items: seq<(string, string)>, n: nat): (r: Run<Example>)
    ensures |r.yielded| <= |items|
    ensures forall j :: 0 <= j < |r.yielded| ==>
      r.yielded[j].0 == n + j && Describes(schema, table, items[j].0, items[j].1, n + j, r.yielded[j].1)
    ensures !KnownSchema(schema) ==> r == Run([], None)
    decreases |items|
  {
    if |items| == 0 then Run([], None)
    else
      var (key, img) := items[0];
      var rest := Generate(schema, table, items[1..], n + 1);
      if !KnownSchema(schema) then rest
      else
        match IndexOf(table, key)
        case None => Run([], Some(ValueError("'" + key + "' is not in list")))
        case Some(code) =>
          var e := if schema == SourceSchema then SourceExample(NatToString(n), img, [code])
                   else UnifiedExample(ImageTextExample(NatToString(n), [img], None, None, [code]));
          Cons((n, e), rest)
  }

  /** Under a known schema the loop runs to the end exactly when every
      label is in the table, and then yields one example per image. */
  lemma {:induction false} GenerateCompletes(schema: string, table: seq<string>, items: seq<(string, string)>, n: nat)
    requires KnownSchema(schema)
    ensures var r := Generate(schema, table, items, n);
      && (r.raised.None? <==> forall j :: 0 <= j < |items| ==> items[j].0 in table)
      && (r.raised.None? ==> |r.yielded| == |items|)
    decreases |items|
  {
    if |items| > 0 {
      var tail := items[1..];
      GenerateCompletes(schema, table, tail, n + 1);
      assert forall j :: 1 <= j < |items| ==> items[j] == tail[j - 1];
    }
  }

  /** When the loop raises, it is a `ValueError` at the first image whose
      label is missing from the table, after one example for each image
      before it. */
  lemma {:induction false} GenerateFailsAt(schema: string, table: seq<string>, items: seq<(string, string)>, n: nat)
    requires KnownSchema(schema)
    requires Generate(schema, table, items, n).raised.Some?
    ensures var r := Generate(schema, table, items, n);
      && |r.yielded| < |items| && r.raised.value.ValueError?
      && items[|r.yielded|].0 !in table
      && forall j :: 0 <= j < |r.yielded| ==> items[j].0 in table
    decreases |items|
  {
    var tail := items[1..];
    if items[0].0 in table {
      GenerateFailsAt(schema, table, tail, n + 1);
      assert forall j :: 1 <= j < |items| ==> items[j] == tail[j - 1];
    }
  }

  /** `_generate_examples(filepath, split)`: the task is parsed from the
      config before anything is yielded; the counter starts at 0. */
  function GenerateExamples(c: Config, filepath: Dict<seq<string>>, split: string): (r: Run<Example>)
    ensures TaskOf(c).Err? ==> r == Run([], Some(IndexError))
    ensures |r.yielded| <= |Items(filepath)|
    ensures TaskOf(c).Ok? ==> forall j :: 0 <= j < |r.yielded| ==>
      r.yielded[j].0 == j
      && Describes(c.schema, LabelNames(TaskOf(c).value), Items(filepath)[j].0, Items(filepath)[j].1, j, r.yielded[j].1)
  {
    match TaskOf(c)
    case Err(e) => Run([], Some(e))
    case Ok(task) => Generate(c.schema, LabelNames(task), Items(filepath), 0)
  }

  /** A generation that completes yields one example per file, keyed 0, 1,
      2, ... with no gap, each example's id the decimal key, and each
      label code mapping back, through the task's table, to the label its
      file was filed under. */
  lemma GenerateExamplesNumbering(c: Config, filepath: Dict<seq<string>>, split: string)
    requires TaskOf(c).Ok? && KnownSchema(c.schema)
    requires GenerateExamples(c, filepath, split).raised.None?
    ensures var ys := GenerateExamples(c, filepath, split).yielded;
      && |ys| == TotalFiles(filepath)
      && forall j :: 0 <= j < |ys| ==>
          (ys[j].0 == j && Describes(c.schema, LabelNames(TaskOf(c).value), Items(filepath)[j].0, Items(filepath)[j].1, j, ys[j].1))
  {
    ItemsCount(filepath);
    GenerateCompletes(c.schema, LabelNames(TaskOf(c).value), Items(filepath), 0);
  }

  /** Generation fails exactly when some file sits under a label that is not
      in the task's table. */
  lemma GenerateExamplesFailure(c: Config, filepath: Dict<seq<string>>, split: string)
    requires TaskOf(c).Ok? && KnownSchema(c.schema)
    ensures GenerateExamples(c, filepath, split).raised.Some?
        <==> exists j :: 0 <= j < |Items(filepath)| && Items(filepath)[j].0 !in LabelNames(TaskOf(c).value)
  {
    var table, items := LabelNames(TaskOf(c).value), Items(filepath);
    assert GenerateExamples(c, filepath, split) == Generate(c.schema, table, items, 0);
    GenerateCompletes(c.schema, table, items, 0);
  }

  /** Under an unknown schema nothing is yielded and nothing is raised by
      the generator itself (`_info` has already refused the config). */
  lemma GenerateExamplesUnknownSchema(c: Config, filepath: Dict<seq<string>>, split: string)
    requires TaskOf(c).Ok? && !KnownSchema(c.schema)
    ensures GenerateExamples(c, filepath, split) == Run([], None)
    ensures Info(c) == Err(NotImplementedError)
  {
  }
}
