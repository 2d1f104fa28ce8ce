# Annotation loader of the image multi-label classifier

This project models the dataset loader of the classifier, `data_prepare` in
`block/data_get.py`. The loader reads an annotation file. Each line has the
form `<image-path> <class-id> <class-id> ...`. It turns the file into an
ordered list of samples. A sample is the image path plus a multi-hot label
vector of length `output_class`. An image that lists no class id gets the
all-zero vector (the "empty class" case documented at `run.py:4`). `_load`
then puts the training split, the validation split and the class table into a
dictionary with the keys `train`, `val` and `class`.

Modules:

- `Wrappers`: `Option` and `Result`. A `Result` error stands for a Python exception.
- `PyStr`: the Python string built-ins the parser uses. These are `str.strip()` with
  Python's whitespace set (`str.isspace`), `str.split(' ')`, `' '.join`, and
  `int(str)` in base 10. `int` skips surrounding whitespace, then reads one
  optional sign and ASCII digits with single underscores between digits. The
  whitespace `int` skips (`IntSpace`) is narrower than that of `strip()`:
  CPython maps non-ASCII whitespace to a space and then skips only
  `\t \n \v \f \r` and the space. So the ASCII separators U+001C-U+001F,
  which `strip()` removes, make `int` fail. It also has `str(k)` for natural numbers
  (`ShowNat`).
- `Annotations`: one line and one file. `Encode` is the left-to-right run of
  `labels[int(j)] = 1` writes over a zero vector. `ParseLine` handles one
  stripped and split line. `ParseLines` handles the whole file: it takes the
  outcome of every line and gathers them in order (`Collect`), stopping at the
  first failure. Each line is parsed independently, so this gives the same
  result as the line-by-line loop. The method
  `ParseAnnotations` is the loop of `_load_train`. It preallocates the sample
  array, fills each entry in place and builds each label in a fresh `int`
  array (`FillLabels`). It is proved equal to `ParseLines`.
- `DataGet`: `_load_train`/`_load_val` (one method, `LoadSplit`) and `_load`
  (`Load`). They are stated over a file system given as a map from path to the
  lines `readlines()` returns.

Where the code and the program's own documentation (`run.py:4-6`, `run.py:84-85`) disagree, the model follows the code:

- `_load_val` opens `train.txt`, not `val.txt` (`block/data_get.py:34`), even
  though `run.py:5` describes `val.txt` as the validation list and
  `run.py:84` checks that it exists. `Load` therefore proves that `val`
  equals `train`. `ValIgnoresValFile` proves that the contents of `val.txt`
  never matter.

Errors are the exceptions of the built-ins the code calls:

- a bad token raises `ValueError` from `int` (`InvalidLiteral`);
- an id that is too large raises `IndexError` from the numpy write (`IndexOutOfBounds`);
- a negative `output_class` raises `ValueError` from `np.zeros` (`NegativeDimensions`);
- a missing file raises `FileNotFoundError` from `open` (`FileNotFound`).

Each `BadLine` error also records the zero-based line where the parse stopped.

## Model

| member | source | states |
|---|---|---|
| `PyStr.LStrip` | block/data_get.py:24 | leading-whitespace removal never lengthens the line and leaves no whitespace at the front |
| `PyStr.LStripSpec` | block/data_get.py:24 | `lstrip()` keeps a suffix and cuts off only whitespace |
| `PyStr.RStrip` | block/data_get.py:24 | trailing-whitespace removal keeps the first character and leaves no whitespace at the end |
| `PyStr.RStripSpec` | block/data_get.py:24 | `rstrip()` keeps a prefix and cuts off only whitespace |
| `PyStr.Strip` | block/data_get.py:24 | the stripped line has no whitespace at either end |
| `PyStr.StripSlice` | block/data_get.py:24 | the stripped line is a contiguous piece of the line, with only whitespace before and after it |
| `PyStr.StripTrimmed` | block/data_get.py:24 | a line with no whitespace at its ends is left unchanged |
| `PyStr.StripIdempotent` | block/data_get.py:24 | stripping twice gives the same result as stripping once |
| `PyStr.StripPadded` | block/data_get.py:24 | whitespace added on either side (such as the trailing newline) does not change the stripped line |
| `PyStr.Split` | block/data_get.py:24 | `split(' ')` yields at least one piece, no piece holds a space, and joining the pieces with single spaces gives back the string |
| `PyStr.SplitJoin` | block/data_get.py:24 | splitting after joining space-free pieces returns exactly those pieces, so `Split` is fully determined |
| `PyStr.SplitWord` | block/data_get.py:24 | a string without spaces is a single token |
| `PyStr.SplitCons` | block/data_get.py:24 | a space-free word followed by a space splits off as the first token |
| `PyStr.ShowNat` | run.py:4 | `str(k)`, the inverse of `int`, writing an id as the line format shows it: the decimal rendering of an id is non-empty, all digits, and has no leading zero |
| `PyStr.DigitsValueShowNat` | run.py:4 | the decimal rendering of `k` is a well-formed digit string whose value is `k` |
| `PyStr.ParseIntShowNat` | block/data_get.py:30 | `int(str(k)) == k` for every natural `k` |
| `PyStr.IntStripSpec` | block/data_get.py:30 | the part of a token `int` reads is the piece after its leading skipped whitespace |
| `PyStr.IntStripCut` | block/data_get.py:30 | `int` skips only `IntSpace` whitespace before and after that piece |
| `PyStr.IntStripEnds` | block/data_get.py:30 | that piece neither starts nor ends with whitespace `int` skips |
| `PyStr.ParseIntRejects` | block/data_get.py:30 | `int` rejects the empty token, a lone sign, doubled underscores, a leading underscore, and a digit after the separator U+001C |
| `PyStr.ParseIntAccepts` | block/data_get.py:30 | `int` skips non-ASCII whitespace such as U+00A0 and reads a signed number |
| `Annotations.Zeros` | block/data_get.py:28 | `np.zeros(n)` has `n` entries, all 0 |
| `Annotations.CheckId` | block/data_get.py:30 | a class token is accepted exactly when `int` succeeds and the index lies in `[0, size)`, and then it is that integer |
| `Annotations.Encode` | block/data_get.py:28-30 | a successful label vector has length `output_class` and only 0/1 entries |
| `Annotations.EncodeOk` | block/data_get.py:28-30 | the label is built exactly when every class token is an in-range integer |
| `Annotations.EncodeMultiHot` | block/data_get.py:28-30 | a successful label equals the reference multi-hot vector of the set of named ids |
| `Annotations.IdSetMembers` | block/data_get.py:29-30 | an id is in the named set exactly when some token parses to it |
| `Annotations.LabelEntries` | block/data_get.py:28-30 | entry `k` is 1 if and only if some token names `k`, and 0 if and only if none does |
| `Annotations.EncodeFirstFault` | block/data_get.py:29-30 | a failed label reports the fault of the first rejected token, and every earlier token was accepted |
| `Annotations.EncodeHeadFault` | block/data_get.py:29-30 | a rejected first class token is the fault of the whole label |
| `Annotations.EncodePrefixErr` | block/data_get.py:29-30 | once a token fails, later tokens do not change the outcome |
| `Annotations.RepeatedId` | block/data_get.py:29-30 | listing an id that is already on the line again gives exactly the same result |
| `Annotations.SameTokensSameLabel` | block/data_get.py:29-30 | two lines with the same set of tokens both fail or both give the same label, whatever the order or repetition |
| `Annotations.SameTokensSameIds` | block/data_get.py:29-30 | two lines with the same set of tokens name the same set of class ids |
| `Annotations.PermutedIds` | block/data_get.py:29-30 | reordering the class ids of a line does not change whether it parses or which label it gets |
| `Annotations.ParsedLine` | block/data_get.py:24-30 | a parsed sample's path is the first token; it contains no space and is empty only for a blank line; the label has `output_class` entries and is 1 exactly at the named ids |
| `Annotations.ParseLineOk` | block/data_get.py:24-30 | a line parses if and only if `output_class` is not negative and every token after the path is an in-range integer id |
| `Annotations.ParseLineFault` | block/data_get.py:28-30 | a failing line reports the negative dimension or the fault of its first rejected class token |
| `Annotations.DoubleSpaceFails` | block/data_get.py:24-30 | two spaces after the path make an empty token, and the line fails with `int('')` |
| `Annotations.EmptyClass` | block/data_get.py:28-30 | a line that is only a path gives that path and the all-zero vector of length `output_class` |
| `Annotations.Shown` | run.py:4 | the class ids of a line written as in the documented format `image/mask/0.jpg 0 2`: one rendered token per id |
| `Annotations.RenderTokens` | block/data_get.py:24 | the tokens of a rendered line are the path followed by the rendered ids |
| `Annotations.EncodeShown` | block/data_get.py:28-30 | rendered in-range ids encode to the multi-hot vector of the set of those ids |
| `Annotations.RenderRoundTrip` | block/data_get.py:24-30 | parsing a rendered line `path id id ...` gives back the path and the multi-hot vector of exactly those ids |
| `Annotations.OneIdLine` | block/data_get.py:24-30 | the line `path k\n` gives a vector whose only 1 is at `k` |
| `Annotations.PathOnlyLine` | block/data_get.py:24-30 | the line `path\n` gives the all-zero vector |
| `Annotations.TwoLineFile` | block/data_get.py:22-31 | a file of `img1.jpg 0` and `img2.jpg` gives `[1,0,0]` and `[0,0,0]` with three classes, stated for any two paths and class `k` |
| `Annotations.CollectOk` | block/data_get.py:26-31 | gathering the line outcomes succeeds if and only if every outcome is a success |
| `Annotations.CollectOrder` | block/data_get.py:25-27 | a successful gathering holds one sample per line outcome, in order |
| `Annotations.CollectFirstError` | block/data_get.py:26-30 | a failed gathering names the first failing outcome with its fault, and every earlier outcome succeeded |
| `Annotations.CollectPrefixErr` | block/data_get.py:26-30 | a failure among the first outcomes is the failure of the whole gathering |
| `Annotations.ParseLinesOk` | block/data_get.py:26-30 | the file parses if and only if every line parses |
| `Annotations.ParseLinesOrder` | block/data_get.py:25-27 | a parsed file has one sample per line, and sample `i` is the parse of line `i` |
| `Annotations.ParseLinesFirstError` | block/data_get.py:26-30 | a failed parse names the first line that fails, with its fault, and every earlier line parses |
| `Annotations.ParseLinesPrefixErr` | block/data_get.py:26-30 | a failure on an earlier line ends the whole parse with that failure |
| `Annotations.ParseLinesAppend` | block/data_get.py:26-27 | appending a line that parses appends its sample |
| `Annotations.ParseAnnotations` | block/data_get.py:24-31 | the in-place loop over the preallocated list returns exactly `ParseLines` of the lines |
| `Annotations.FillLabels` | block/data_get.py:28-30 | the element-by-element write into a fresh zero array returns exactly `Encode` of the class tokens |
| `DataGet.ReadAnnotationsSpec` | block/data_get.py:23-31 | a missing file is `FileNotFound(path)`; otherwise there is one sample per line in file order, or a failing line |
| `DataGet.LoadSplit` | block/data_get.py:22-42 | `_load_train` and `_load_val` both return the parse of `<data_path>/train.txt` |
| `DataGet.Load` | block/data_get.py:15-20 | the dictionary has exactly the keys `train`, `val`, `class`; `train` is the parse of `train.txt`, `val` equals `train`, `class` is the class table; a failure to load `train.txt` is the result |
| `DataGet.ValIgnoresValFile` | block/data_get.py:34 | changing `val.txt` never changes the loaded splits |

## Left out

- File opening and `readlines()` (block/data_get.py:23-24): I/O. The file system is a parameter mapping each path to its lines, with universal-newline translation already done.
- `_load_class` (block/data_get.py:44-46): `pandas.read_csv` is a foreign library. The class table is an opaque input to `Load`, and a failing `read_csv` is not modelled. `run.py:85` checks for `class.txt` while `_load_class` reads `class.csv`. This is recorded here, not modelled.
- `data_get` (block/data_get.py:6-8): a one-line wrapper that constructs `data_prepare` and calls `_load`. `Load` stands for both.
- The `__main__` block (block/data_get.py:49-56): command-line plumbing.
- `Annotations.CheckId`: a negative id is reported as `NegativeIndex`. numpy would instead wrap an id in `[-output_class, -1]` to index from the end. That wrap is library behaviour, so the model gives it no meaning.
- `PyStr.ParseInt`: Python's `int` also accepts non-ASCII Unicode decimal digits. The model accepts only ASCII digits and rejects the others as `InvalidLiteral`.
- `PyStr.ParseInt`: does not model the digit limit of CPython 3.11 and later, which rejects a decimal string of more than 4300 digits with `ValueError`. Leading zeros count towards that limit, and underscores do not. The model reads digit strings of any length. A zero-padded over-long token whose value is in range, such as 4300 zeros followed by `1`, is accepted by the model but rejected by CPython 3.11+. Only over-long tokens whose value is out of range fail in both: as `IndexOutOfBounds` in the model and `ValueError` in CPython. The limit depends on the interpreter version and configuration (`sys.set_int_max_str_digits`), so it is left out.
- `DataGet.Load`: the result is a `map`, so the insertion order of the Python dict (`train`, `val`, `class`) is not kept. Nothing in `block/data_get.py` depends on that order.
- The `float32` label entries are modelled as the integers 0 and 1.
- Memory exhaustion for a huge `output_class` is not modelled.
- `run.py` (configuration, seeding, wandb, GradScaler, process-group set-up, file-existence asserts): plumbing with no logic to model.
- `model/timm_model.py`: a wrapper over the `timm` library and `torch.nn`.
- The training loop, EMA, learning-rate schedule, mixed-precision scaling and distributed gradient sync: `block/train_get.py`, `block/model_get.py` and `block/loss_get.py` are not part of this model.
