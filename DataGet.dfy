/** `data_prepare._load` (block/data_get.py): the dataset dictionary with
    its `train`, `val` and `class` entries. Opening and reading files is
    outside the model: the file system is a map from a path to the lines
    `readlines()` would return, and the class table that `_load_class` reads
    with pandas is an opaque input. */
module DataGet {
  import opened Wrappers
  import opened Annotations

  /** The two options the loader reads: `data_path` and `output_class`. */
  datatype Args = Args(dataPath: string, outputClass: int)

  /** The readable files: a path mapped to the lines of the file. */
  type FileSystem = map<string, seq<string>>

  /** The rows of `class.csv` as `read_csv(...).values.tolist()` gives them. */
  type ClassTable = seq<seq<string>>

  /** A value of the dataset dictionary. */
  datatype Entry = Samples(samples: seq<Sample>) | Classes(table: ClassTable)

  const TrainFile: string := "train.txt"
  const ValFile: string := "val.txt"

  /** `args.data_path + '/' + name`. */
  function AnnotationPath(args: Args, name: string): string {
    args.dataPath + "/" + name
  }

  /** Loading one annotation file: `open` fails when the file is absent,
      otherwise its lines are parsed. */
  function ReadAnnotations(args: Args, fs: FileSystem, name: string): Result<seq<Sample>, LoadError> {
    var path := AnnotationPath(args, name);
    if path !in fs then Err(FileNotFound(path)) else ParseLines(fs[path], args.outputClass)
  }

  /** A loaded split has one sample per line of its file, in file order; a
      missing file or a bad line is reported as such. */
  lemma ReadAnnotationsSpec(args: Args, fs: FileSystem, name: string)
    ensures var path := AnnotationPath(args, name);
      && (path !in fs ==> ReadAnnotations(args, fs, name) == Err(FileNotFound(path)))
      && (path in fs && ReadAnnotations(args, fs, name).Ok? ==>
            |ReadAnnotations(args, fs, name).value| == |fs[path]|
            && forall i :: 0 <= i < |fs[path]| ==>
                 ParseLine(fs[path][i], args.outputClass) == Ok(ReadAnnotations(args, fs, name).value[i]))
      && (path in fs && ReadAnnotations(args, fs, name).Err? ==>
            ReadAnnotations(args, fs, name).error.BadLine?)
  {
    var path := AnnotationPath(args, name);
    if path in fs && ParseLines(fs[path], args.outputClass).Ok? {
      ParseLinesOrder(fs[path], args.outputClass);
    } else if path in fs {
      ParseLinesFirstError(fs[path], args.outputClass);
    }
  }

  /** `_load_train` and `_load_val`: the two are the same code, and both open
      `train.txt`. */
  method LoadSplit(args: Args, fs: FileSystem) returns (r: Result<seq<Sample>, LoadError>)
    ensures r == ReadAnnotations(args, fs, TrainFile)
  {
    var path := AnnotationPath(args, TrainFile);
    if path !in fs {
      r := Err(FileNotFound(path));
      return;
    }
    r := ParseAnnotations(fs[path], args.outputClass);
  }

  /** `_load`: the dictionary holds exactly the keys `train`, `val` and
      `class`; `train` and `val` are the same samples, those of `train.txt`,
      and `class` is the class table. A failure to load `train.txt` is the
      failure of the whole call. */
  method Load(args: Args, fs: FileSystem, classes: ClassTable) returns (r: Result<map<string, Entry>, LoadError>)
    ensures r.Ok? <==> ReadAnnotations(args, fs, TrainFile).Ok?
    ensures r.Err? ==> r.error == ReadAnnotations(args, fs, TrainFile).error
    ensures r.Ok? ==>
      && r.value.Keys == {"train", "val", "class"}
      && r.value["train"] == Samples(ReadAnnotations(args, fs, TrainFile).value)
      && r.value["val"] == r.value["train"]
      && r.value["class"] == Classes(classes)
  {
    var dataDict: map<string, Entry> := map[];
    var train := LoadSplit(args, fs);
    if train.Err? {
      r := Err(train.error);
      return;
    }
    dataDict := dataDict["train" := Samples(train.value)];
    var val := LoadSplit(args, fs);
    dataDict := dataDict["val" := Samples(val.value)];
    dataDict := dataDict["class" := Classes(classes)];
    r := Ok(dataDict);
  }

  /** The validation split does not depend on `val.txt` at all: replacing
      that file's lines leaves what `_load` produces unchanged. */
  lemma ValIgnoresValFile(args: Args, fs: FileSystem, lines: seq<string>)
    ensures ReadAnnotations(args, fs[AnnotationPath(args, ValFile) := lines], TrainFile)
         == ReadAnnotations(args, fs, TrainFile)
  {
    var v := AnnotationPath(args, ValFile);
    var t := AnnotationPath(args, TrainFile);
    assert |v| != |t|;
  }
}
