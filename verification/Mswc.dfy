/** The Multilingual Spoken Words loader: its config list, the schema
    dispatch of `_info`, the split list, and the generator that numbers the
    rows of several parquet files with one running counter.
 */
module Mswc {
  import opened Common

  const DatasetName := "mswc"
  const SourceSchema := "source"
  const SourceVersion := "1.0.0"
  const SeaCrowdVersion := "1.0.0"
  const DefaultConfigName := DatasetName + "_source"

  // ---------------------------------------------------------------------
  // Tasks, schema strings and configs
  // ---------------------------------------------------------------------

  datatype Task = SpeechRecognition

  const SupportedTasks: seq<Task> := [SpeechRecognition]

  /** `TASK_TO_SCHEMA`, restricted to the one task this loader supports. */
  function TaskToSchema(t: Task): string
  {
    match t
    case SpeechRecognition => "SPTEXT"
  }

  /** ASCII lower-casing, as `str.lower` does on these schema names. */
  function Lower(s: string): (r: string)
    ensures |r| == |s|
    ensures forall i :: 0 <= i < |s| ==> (if 'A' <= s[i] <= 'Z' then r[i] as int == s[i] as int + 32 else r[i] == s[i])
  {
    seq(|s|, i requires 0 <= i < |s| => if 'A' <= s[i] <= 'Z' then (s[i] as int + 32) as char else s[i])
  }

  /** `f"seacrowd_{str(TASK_TO_SCHEMA[task]).lower()}"`. */
  function SchemaString(t: Task): string
  {
    "seacrowd_" + Lower(TaskToSchema(t))
  }

  /** `_SUPPORTED_SCHEMA_STRINGS`: one schema string per supported task. */
  function SupportedSchemaStrings(): (r: seq<string>)
    ensures |r| == |SupportedTasks|
    ensures forall i :: 0 <= i < |r| ==> r[i] == SchemaString(SupportedTasks[i])
  {
    seq(|SupportedTasks|, i requires 0 <= i < |SupportedTasks| => SchemaString(SupportedTasks[i]))
  }

  /** The only supported schema string is `seacrowd_sptext`. */
  lemma SupportedSchemaStringsValue()
    ensures SupportedSchemaStrings() == ["seacrowd_sptext"]
  {
    var l := Lower("SPTEXT");
    assert l[0] == 's' && l[1] == 'p' && l[2] == 't' && l[3] == 'e' && l[4] == 'x' && l[5] == 't';
    assert l == "sptext";
    assert SchemaString(SpeechRecognition) == "seacrowd_sptext";
    assert SupportedSchemaStrings()[0] == SchemaString(SupportedTasks[0]);
  }

  /** The config of one schema string. */
  function SchemaConfig(schema: string): (c: Config)
    ensures c.name == DatasetName + "_" + schema && c.schema == schema
  {
    Config(DatasetName + "_" + schema, SeaCrowdVersion, DatasetName + " " + schema + " schema", schema, DatasetName)
  }

  /** `BUILDER_CONFIGS`: the source config, then one config per schema
      string, in order. */
  function ConfigsFor(schemas: seq<string>): seq<Config>
  {
    [Config(DatasetName + "_source", SourceVersion, DatasetName + " source schema", SourceSchema, DatasetName)]
      + seq(|schemas|, i requires 0 <= i < |schemas| => SchemaConfig(schemas[i]))
  }

  function BuilderConfigs(): seq<Config>
  {
    ConfigsFor(SupportedSchemaStrings())
  }

  /** Config 0 is the source config; config `i + 1` is named after schema
      string `i` and carries it as its schema. */
  lemma ConfigsForShape(schemas: seq<string>)
    ensures |ConfigsFor(schemas)| == |schemas| + 1
    ensures ConfigsFor(schemas)[0].name == DefaultConfigName && ConfigsFor(schemas)[0].schema == SourceSchema
    ensures ConfigsFor(schemas)[0].version == SourceVersion
    ensures forall i :: 0 <= i < |schemas| ==>
              && ConfigsFor(schemas)[i + 1].name == DatasetName + "_" + schemas[i]
              && ConfigsFor(schemas)[i + 1].schema == schemas[i]
              && ConfigsFor(schemas)[i + 1].version == SeaCrowdVersion
  {
  }

  datatype Features = SourceFeatures | SpeechTextFeatures

  /** `_info`: the source schema, the speech-recognition schema, and a
      `ValueError` naming the config for anything else. */
  function Info(c: Config): (r: Result<Features>)
    ensures r.Ok? <==> c.schema == SourceSchema || c.schema == SchemaString(SpeechRecognition)
    ensures c.schema == SourceSchema ==> r == Ok(SourceFeatures)
    ensures c.schema == SchemaString(SpeechRecognition) ==> r == Ok(SpeechTextFeatures)
    ensures r.Err? ==> r.error == ValueError("Invalid config: " + c.name)
  {
    if c.schema == SourceSchema then Ok(SourceFeatures)
    else if c.schema == SchemaString(SpeechRecognition) then Ok(SpeechTextFeatures)
    else Err(ValueError("Invalid config: " + c.name))
  }

  /** `_info` accepts exactly the schemas of the built configs. */
  lemma InfoAcceptsBuiltSchemas(c: Config)
    ensures Info(c).Ok? <==> c.schema == SourceSchema || c.schema in SupportedSchemaStrings()
  {
    assert SupportedSchemaStrings() == [SchemaString(SpeechRecognition)];
  }

  /** Every built config has a feature set. */
  lemma BuilderConfigsInfo()
    ensures |BuilderConfigs()| == 2
    ensures forall i :: 0 <= i < |BuilderConfigs()| ==> Info(BuilderConfigs()[i]).Ok?
  {
    ConfigsForShape(SupportedSchemaStrings());
  }

  // ---------------------------------------------------------------------
  // Split generators
  // ---------------------------------------------------------------------

  datatype SplitGenerator = SplitGenerator(name: string, paths: seq<string>)

  const SplitNames: seq<string> := ["train", "validation", "test"]

  /** `_split_generators` as written: each split's generator is appended
      wrapped in a one-element list, so the result is a list of lists and
      none of its elements is a split generator. */
  function SplitGeneratorsAsWritten(train: seq<string>, validation: seq<string>, test: seq<string>): (w: seq<seq<SplitGenerator>>)
    ensures |w| == 3 && forall i :: 0 <= i < 3 ==> |w[i]| == 1 && w[i][0].name == SplitNames[i]
  {
    var paths := [train, validation, test];
    seq(3, i requires 0 <= i < 3 => [SplitGenerator(SplitNames[i], paths[i])])
  }

  /** The flat list of split generators the builder consumes: one per split,
      in the order train, validation, test, each with that split's paths. */
  function SplitGenerators(train: seq<string>, validation: seq<string>, test: seq<string>): (g: seq<SplitGenerator>)
    ensures |g| == 3 && forall i :: 0 <= i < 3 ==> g[i].name == SplitNames[i]
    ensures g[0].paths == train && g[1].paths == validation && g[2].paths == test
  {
    [SplitGenerator("train", train), SplitGenerator("validation", validation), SplitGenerator("test", test)]
  }

  /** Flattening the list as written gives the intended list. */
  lemma SplitGeneratorsNested(train: seq<string>, validation: seq<string>, test: seq<string>)
    ensures var w := SplitGeneratorsAsWritten(train, validation, test);
      w[0] + w[1] + w[2] == SplitGenerators(train, validation, test)
  {
    var w := SplitGeneratorsAsWritten(train, validation, test);
    assert w[0] == [SplitGenerator("train", train)];
    assert w[1] == [SplitGenerator("validation", validation)];
    assert w[2] == [SplitGenerator("test", test)];
  }

  // ---------------------------------------------------------------------
  // Example generation
  // ---------------------------------------------------------------------

  /** All rows of the files, in path order and then row order. */
  function Concat<R>(files: seq<seq<R>>): seq<R>
  {
    if |files| == 0 then [] else files[0] + Concat(files[1..])
  }

  /** The number of rows over all files. */
  function TotalRows<R>(files: seq<seq<R>>): nat
  {
    if |files| == 0 then 0 else |files[0]| + TotalRows(files[1..])
  }

  /** The records of the files with the counter starting at `idx`: each
      file's rows in order, the counter carried over from one file to the
      next. */
  function Emit<R>(files: seq<seq<R>>, idx: int): (r: seq<(int, R)>)
    ensures forall j :: 0 <= j < |r| ==> r[j].0 == idx + j
  {
    if |files| == 0 then []
    else seq(|files[0]|, j requires 0 <= j < |files[0]| => (idx + j, files[0][j])) + Emit(files[1..], idx + |files[0]|)
  }

  /** The counter runs without gaps over the concatenation of all files. */
  lemma {:induction false} EmitSpec<R>(files: seq<seq<R>>, idx: int)
    ensures |Emit(files, idx)| == |Concat(files)| == TotalRows(files)
    ensures forall j :: 0 <= j < |Emit(files, idx)| ==> Emit(files, idx)[j] == (idx + j, Concat(files)[j])
    decreases |files|
  {
    if |files| > 0 {
      EmitSpec(files[1..], idx + |files[0]|);
    }
  }

  /** Row `r` of file `f` gets the key that counts every row of the files
      before it: the counter never resets at a file boundary. */
  lemma {:induction false} EmitFileRow<R>(files: seq<seq<R>>, idx: int, f: nat, r: nat)
    requires f < |files| && r < |files[f]|
    ensures TotalRows(files[..f]) + r < |Emit(files, idx)|
    ensures Emit(files, idx)[TotalRows(files[..f]) + r] == (idx + TotalRows(files[..f]) + r, files[f][r])
    decreases f
  {
    EmitSpec(files, idx);
    if f == 0 {
      assert files[..0] == [];
    } else {
      EmitFileRow(files[1..], idx + |files[0]|, f - 1, r);
      assert files[..f][1..] == files[1..][..f - 1];
      assert files[1..][f - 1] == files[f];
    }
  }

  /** The inner loop of `_generate_examples` over the rows of one file:
      yield `(idx, row)` and advance `idx`. */
  method EmitFile<R>(rows: seq<R>, idx: int) returns (block: seq<(int, R)>, next: int)
    ensures |block| == |rows| && next == idx + |rows|
    ensures forall j :: 0 <= j < |rows| ==> block[j] == (idx + j, rows[j])
  {
    block, next := [], idx;
    var r := 0;
    while r < |rows|
      invariant 0 <= r <= |rows| && |block| == r && next == idx + r
      invariant forall j :: 0 <= j < r ==> block[j] == (idx + j, rows[j])
    {
      block := block + [(next, rows[r])];
      next := next + 1;
      r := r + 1;
    }
  }

  /** The loops of `_generate_examples`: for each path, for each row, yield
      `(idx, row)` and advance `idx`. */
  method EmitLoop<R>(files: seq<seq<R>>) returns (out: seq<(int, R)>, idx: int)
    ensures out == Emit(files, 0)
    ensures idx == |out| == TotalRows(files)
    ensures forall j :: 0 <= j < |out| ==> out[j].0 == j
  {
    out, idx := [], 0;
    var f := 0;
    while f < |files|
      invariant 0 <= f <= |files|
      invariant idx == |out| == TotalRows(files[..f])
      invariant out + Emit(files[f..], idx) == Emit(files, 0)
    {
      var block, next := EmitFile(files[f], idx);
      EmitStep(files, f, idx);
      assert block == seq(|files[f]|, j requires 0 <= j < |files[f]| => (idx + j, files[f][j]));
      SeqAssoc(out, block, Emit(files[f + 1..], next));
      TotalRowsPrefix(files, f);
      out, idx := out + block, next;
      f := f + 1;
    }
    assert files[..|files|] == files;
    EmitSpec(files, 0);
  }

  lemma EmitStep<R>(files: seq<seq<R>>, f: nat, idx: int)
    requires f < |files|
    ensures Emit(files[f..], idx)
         == seq(|files[f]|, j requires 0 <= j < |files[f]| => (idx + j, files[f][j])) + Emit(files[f + 1..], idx + |files[f]|)
  {
    assert files[f..][1..] == files[f + 1..];
  }

  lemma {:induction false} TotalRowsPrefix<R>(files: seq<seq<R>>, f: nat)
    requires f < |files|
    ensures TotalRows(files[..f + 1]) == TotalRows(files[..f]) + |files[f]|
    decreases f
  {
    if f > 0 {
      TotalRowsPrefix(files[1..], f - 1);
      assert files[..f + 1][1..] == files[1..][..f];
      assert files[..f][1..] == files[1..][..f - 1];
    }
  }

  /** `_generate_examples`: under the source schema or a supported schema
      the rows of all files, unchanged, under a counter from 0; under any
      other schema nothing, then `ValueError` naming the config. */
  function GenerateExamples<R>(c: Config, files: seq<seq<R>>): (r: Run<R>)
    ensures c.schema != SourceSchema && c.schema !in SupportedSchemaStrings() ==>
              r == Run([], Some(ValueError("Invalid config: " + c.name)))
  {
    if c.schema == SourceSchema then Run(Emit(files, 0), None)
    else if c.schema in SupportedSchemaStrings() then Run(Emit(files, 0), None)
    else Run([], Some(ValueError("Invalid config: " + c.name)))
  }

  /** Under an accepted schema the run completes, yields one record per row
      of every file, keyed 0, 1, 2, ..., each record the row itself. */
  lemma GenerateExamplesNumbering<R>(c: Config, files: seq<seq<R>>)
    requires c.schema == SourceSchema || c.schema in SupportedSchemaStrings()
    ensures var r := GenerateExamples(c, files);
      && r.raised.None? && |r.yielded| == |Concat(files)| == TotalRows(files)
      && forall j :: 0 <= j < |r.yielded| ==> r.yielded[j] == (j, Concat(files)[j])
  {
    EmitSpec(files, 0);
  }

  /** The supported-schema branch is the source branch. */
  lemma GenerateBranchesAgree<R>(c: Config, d: Config, files: seq<seq<R>>)
    requires c.schema == SourceSchema && d.schema in SupportedSchemaStrings()
    ensures GenerateExamples(c, files) == GenerateExamples(d, files)
  {
  }

  /** A schema rejected by the generator is rejected by `_info` too, with
      the same error. */
  lemma GenerateExamplesAgreesWithInfo<R>(c: Config, files: seq<seq<R>>)
    ensures GenerateExamples(c, files).raised.Some? <==> Info(c).Err?
    ensures Info(c).Err? ==> GenerateExamples(c, files).raised == Some(Info(c).error)
  {
    assert SupportedSchemaStrings() == [SchemaString(SpeechRecognition)];
  }
}
