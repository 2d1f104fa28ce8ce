/** The annotation parser of `data_prepare` (block/data_get.py): each line
    `<image-path> <class-id> <class-id> ...` of an annotation file becomes a
    sample, the image path together with a multi-hot label vector of length
    `output_class` (numpy `float32` zeros and ones, here the integers 0 and 1). */
module Annotations {
  import opened Wrappers
  import opened PyStr

  datatype Sample = Sample(path: string, labels: seq<int>)

  /** Why a line cannot be turned into a sample. */
  datatype Fault =
    | InvalidLiteral(token: string)          // ValueError from int(token)
    | NegativeIndex(index: int)              // a negative class id (not given a meaning here)
    | IndexOutOfBounds(index: int, size: nat) // IndexError from labels[index] = 1
    | NegativeDimensions(count: int)         // ValueError from np.zeros(size)

  /** The first failure while loading: the zero-based line it occurred on and
      its cause, or the annotation file being absent. */
  datatype LoadError = BadLine(line: nat, fault: Fault) | FileNotFound(path: string)

  /** The tokens of one line: `line.strip().split(' ')`. */
  function Tokens(line: string): seq<string> {
    Split(Strip(line))
  }

  /** `np.zeros(n)`. */
  function Zeros(n: nat): (r: seq<int>)
    ensures |r| == n && forall k :: 0 <= k < n ==> r[k] == 0
  {
    seq(n, _ => 0)
  }

  /** The class id a token names, checked against a label vector of `size` entries:
      `int(token)` must succeed and the index must lie in `[0, size)`. */
  function CheckId(token: string, size: nat): (r: Result<nat, Fault>)
    ensures r.Ok? <==> ParseInt(token).Some? && 0 <= ParseInt(token).value < size
    ensures r.Ok? ==> r.value == ParseInt(token).value
  {
    match ParseInt(token)
    case None => Err(InvalidLiteral(token))
    case Some(k) =>
      if k < 0 then Err(NegativeIndex(k))
      else if k >= size then Err(IndexOutOfBounds(k, size))
      else Ok(k)
  }

  /** One write `labels[int(token)] = 1`. */
  function Mark(labels: seq<int>, token: string): Result<seq<int>, Fault> {
    match CheckId(token, |labels|)
    case Err(f) => Err(f)
    case Ok(k) => Ok(labels[k := 1])
  }

  /** The label vector of a line whose class tokens are `ids`: a zero vector of
      length `n`, then one `Mark` per token, left to right. */
  function Encode(ids: seq<string>, n: nat): (r: Result<seq<int>, Fault>)
    ensures r.Ok? ==> |r.value| == n
    ensures r.Ok? ==> forall k :: 0 <= k < n ==> r.value[k] == 0 || r.value[k] == 1
    decreases |ids|
  {
    if ids == [] then Ok(Zeros(n))
    else
      match Encode(ids[..|ids| - 1], n)
      case Err(f) => Err(f)
      case Ok(labels) => Mark(labels, ids[|ids| - 1])
  }

  /** The class ids that the tokens `ids` name (ignoring tokens that are not integers). */
  function IdSet(ids: seq<string>): set<int>
    decreases |ids|
  {
    if ids == [] then {}
    else
      IdSet(ids[..|ids| - 1])
      + match ParseInt(ids[|ids| - 1]) { case None => {} case Some(k) => {k} }
  }

  /** The reference multi-hot vector: entry `k` is 1 exactly when `k` is in `ids`. */
  function MultiHot(ids: set<int>, n: nat): seq<int> {
    seq(n, k => if k in ids then 1 else 0)
  }

  /** Some token of `ids` names class `k`. */
  ghost predicate Names(ids: seq<string>, k: int) {
    exists j :: 0 <= j < |ids| && ParseInt(ids[j]) == Some(k)
  }

  lemma {:induction false} IdSetMembers(ids: seq<string>, k: int)
    ensures k in IdSet(ids) <==> Names(ids, k)
    decreases |ids|
  {
    if ids != [] {
      var init, last := ids[..|ids| - 1], ids[|ids| - 1];
      IdSetMembers(init, k);
      NamesSnoc(init, last, k);
      assert init + [last] == ids;
    }
  }

  lemma NamesSnoc(init: seq<string>, last: string, k: int)
    ensures Names(init + [last], k) <==> Names(init, k) || ParseInt(last) == Some(k)
  {
    var ids := init + [last];
    if Names(init, k) {
      var j :| 0 <= j < |init| && ParseInt(init[j]) == Some(k);
      assert ids[j] == init[j];
    }
    if ParseInt(last) == Some(k) {
      assert ids[|init|] == last;
    }
    if Names(ids, k) {
      var j :| 0 <= j < |ids| && ParseInt(ids[j]) == Some(k);
      if j < |init| {
        assert init[j] == ids[j];
      }
    }
  }

  /** Encoding succeeds exactly when every token is an integer naming a class
      in `[0, n)`; otherwise int() or the array write raises. */
  lemma {:induction false} EncodeOk(ids: seq<string>, n: nat)
    ensures Encode(ids, n).Ok? <==> forall j :: 0 <= j < |ids| ==> CheckId(ids[j], n).Ok?
    decreases |ids|
  {
    if ids != [] {
      var init := ids[..|ids| - 1];
      EncodeOk(init, n);
      assert forall j :: 0 <= j < |init| ==> init[j] == ids[j];
    }
  }

  /** A successful encoding is the reference multi-hot vector of the named ids. */
  lemma {:induction false} EncodeMultiHot(ids: seq<string>, n: nat)
    requires Encode(ids, n).Ok?
    ensures Encode(ids, n).value == MultiHot(IdSet(ids), n)
    decreases |ids|
  {
    if ids != [] {
      var init := ids[..|ids| - 1];
      EncodeMultiHot(init, n);
      var labels := Encode(init, n).value;
      var k := CheckId(ids[|ids| - 1], n).value;
      assert Encode(ids, n).value == labels[k := 1];
      assert IdSet(ids) == IdSet(init) + {k};
    }
  }

  /** Entry `k` of a successful label vector is 1 when some token names `k` and 0 otherwise. */
  lemma LabelEntries(ids: seq<string>, n: nat)
    requires Encode(ids, n).Ok?
    ensures |Encode(ids, n).value| == n
    ensures forall k :: 0 <= k < n ==> (Encode(ids, n).value[k] == 1 <==> Names(ids, k))
    ensures forall k :: 0 <= k < n ==> (Encode(ids, n).value[k] == 0 <==> !Names(ids, k))
  {
    EncodeMultiHot(ids, n);
    forall k | 0 <= k < n {
      IdSetMembers(ids, k);
    }
  }

  /** When encoding fails it reports the first token that int() or the array
      write rejects. */
  lemma {:induction false} EncodeFirstFault(ids: seq<string>, n: nat)
    requires Encode(ids, n).Err?
    ensures exists j :: 0 <= j < |ids| && CheckId(ids[j], n) == Err(Encode(ids, n).error)
                     && forall i :: 0 <= i < j ==> CheckId(ids[i], n).Ok?
    decreases |ids|
  {
    var init := ids[..|ids| - 1];
    assert forall i :: 0 <= i < |init| ==> init[i] == ids[i];
    if Encode(init, n).Err? {
      assert Encode(ids, n) == Encode(init, n);
      EncodeFirstFault(init, n);
      var j :| 0 <= j < |init| && CheckId(init[j], n) == Err(Encode(init, n).error)
        && forall i :: 0 <= i < j ==> CheckId(init[i], n).Ok?;
      assert CheckId(ids[j], n) == Err(Encode(ids, n).error);
    } else {
      var labels := Encode(init, n).value;
      assert Encode(ids, n) == Mark(labels, ids[|ids| - 1]);
      assert CheckId(ids[|ids| - 1], |labels|).Err?;
      EncodeOk(init, n);
    }
  }

  /** Listing a class id a second time leaves the label vector as it was. */
  lemma RepeatedId(ids: seq<string>, i: nat, n: nat)
    requires i < |ids|
    ensures Encode(ids + [ids[i]], n) == Encode(ids, n)
  {
    var more := ids + [ids[i]];
    assert more[..|more| - 1] == ids && more[|more| - 1] == ids[i];
    if Encode(ids, n).Ok? {
      EncodeOk(ids, n);
      EncodeMultiHot(ids, n);
      var k := CheckId(ids[i], n).value;
      IdSetMembers(ids, k);
      var labels := Encode(ids, n).value;
      assert labels[k] == 1;
      assert Encode(more, n) == Ok(labels[k := 1]);
      assert labels[k := 1] == labels;
    }
  }

  /** Two lines naming the same tokens, in any order and any number of times,
      either both fail or give the same label vector. */
  lemma SameTokensSameLabel(a: seq<string>, b: seq<string>, n: nat)
    requires forall t :: t in a <==> t in b
    ensures Encode(a, n).Ok? <==> Encode(b, n).Ok?
    ensures Encode(a, n).Ok? ==> Encode(a, n).value == Encode(b, n).value
  {
    EncodeOk(a, n);
    EncodeOk(b, n);
    assert (forall j :: 0 <= j < |a| ==> CheckId(a[j], n).Ok?)
       <==> (forall j :: 0 <= j < |b| ==> CheckId(b[j], n).Ok?) by {
      forall j | 0 <= j < |a| ensures exists i :: 0 <= i < |b| && b[i] == a[j] {
        assert a[j] in a;
      }
      forall j | 0 <= j < |b| ensures exists i :: 0 <= i < |a| && a[i] == b[j] {
        assert b[j] in b;
      }
    }
    if Encode(a, n).Ok? {
      EncodeMultiHot(a, n);
      EncodeMultiHot(b, n);
      SameTokensSameIds(a, b);
    }
  }

  /** Lines with the same set of tokens name the same set of ids. */
  lemma SameTokensSameIds(a: seq<string>, b: seq<string>)
    requires forall t :: t in a <==> t in b
    ensures IdSet(a) == IdSet(b)
  {
    forall k ensures k in IdSet(a) <==> k in IdSet(b) {
      IdSetMembers(a, k);
      IdSetMembers(b, k);
      if Names(a, k) {
        var j :| 0 <= j < |a| && ParseInt(a[j]) == Some(k);
        assert a[j] in b;
      }
      if Names(b, k) {
        var j :| 0 <= j < |b| && ParseInt(b[j]) == Some(k);
        assert b[j] in a;
      }
    }
  }

  /** The order of the class ids on a line does not matter. */
  lemma PermutedIds(a: seq<string>, b: seq<string>, n: nat)
    requires multiset(a) == multiset(b)
    ensures Encode(a, n).Ok? <==> Encode(b, n).Ok?
    ensures Encode(a, n).Ok? ==> Encode(a, n).value == Encode(b, n).value
  {
    forall t ensures t in a <==> t in b {
      assert t in a <==> t in multiset(a);
      assert t in b <==> t in multiset(b);
    }
    SameTokensSameLabel(a, b, n);
  }

  /** One line of the annotation file: the first token is the image path, the
      remaining tokens are class ids. */
  function ParseLine(line: string, outputClass: int): Result<Sample, Fault> {
    var txt := Tokens(line);
    if outputClass < 0 then Err(NegativeDimensions(outputClass))
    else
      match Encode(txt[1..], outputClass)
      case Err(f) => Err(f)
      case Ok(labels) => Ok(Sample(txt[0], labels))
  }

  /** A parsed line: the path is the first token, holds no space, and is empty
      only for a blank line; the label vector has `outputClass` entries, 1 exactly at
      the ids the line names and 0 elsewhere. */
  lemma ParsedLine(line: string, outputClass: int)
    requires ParseLine(line, outputClass).Ok?
    ensures var s := ParseLine(line, outputClass).value;
      && s.path == Tokens(line)[0] && ' ' !in s.path
      && (s.path == [] <==> Strip(line) == [])
      && |s.labels| == outputClass
      && forall k :: 0 <= k < outputClass ==>
           (s.labels[k] == 1 <==> Names(Tokens(line)[1..], k))
           && (s.labels[k] == 0 <==> !Names(Tokens(line)[1..], k))
  {
    var t := Strip(line);
    if t != [] {
      SplitHead(t);
    }
    LabelEntries(Tokens(line)[1..], outputClass);
  }

  /** A line parses exactly when `outputClass` is not negative and every token
      after the path is a class id in `[0, outputClass)`. */
  lemma ParseLineOk(line: string, outputClass: int)
    ensures ParseLine(line, outputClass).Ok? <==>
      outputClass >= 0 && forall j :: 1 <= j < |Tokens(line)| ==> CheckId(Tokens(line)[j], outputClass).Ok?
  {
    var txt := Tokens(line);
    if outputClass >= 0 {
      EncodeOk(txt[1..], outputClass);
      assert forall j :: 1 <= j < |txt| ==> txt[1..][j - 1] == txt[j];
    }
  }

  /** A line that does not parse fails with a negative `outputClass` or with
      the fault of its first class token that int() or the array write rejects. */
  lemma ParseLineFault(line: string, outputClass: int)
    requires ParseLine(line, outputClass).Err?
    ensures var f := ParseLine(line, outputClass).error;
      || (outputClass < 0 && f == NegativeDimensions(outputClass))
      || (outputClass >= 0
          && exists j :: (1 <= j < |Tokens(line)| && CheckId(Tokens(line)[j], outputClass) == Err(f)
                          && forall i :: 1 <= i < j ==> CheckId(Tokens(line)[i], outputClass).Ok?))
  {
    var txt := Tokens(line);
    if outputClass >= 0 {
      var ids := txt[1..];
      EncodeFirstFault(ids, outputClass);
      var j :| 0 <= j < |ids| && CheckId(ids[j], outputClass) == Err(Encode(ids, outputClass).error)
        && forall i :: 0 <= i < j ==> CheckId(ids[i], outputClass).Ok?;
      assert forall i :: 1 <= i < |txt| ==> ids[i - 1] == txt[i];
      assert CheckId(txt[j + 1], outputClass) == Err(ParseLine(line, outputClass).error);
    }
  }

  /** Two spaces in a row between the path and what follows make an empty
      token, and `int('')` raises: such a line never parses. */
  lemma DoubleSpaceFails(path: string, rest: string, outputClass: nat)
    requires path != [] && !IsSpace(path[0]) && ' ' !in path
    requires rest != [] && !IsSpace(rest[|rest| - 1])
    ensures ParseLine(path + "  " + rest, outputClass) == Err(InvalidLiteral(""))
  {
    var line := path + "  " + rest;
    assert line == path + " " + (" " + rest);
    assert Trimmed(line);
    StripTrimmed(line);
    SplitCons(path, " " + rest);
    assert [] + " " + rest == " " + rest;
    SplitCons([], rest);
    var ids := Tokens(line)[1..];
    assert ids[0] == [];
    ParseIntRejects();
    EncodeHeadFault(ids, outputClass);
  }

  /** A rejected first class token is the fault of the whole label. */
  lemma EncodeHeadFault(ids: seq<string>, n: nat)
    requires ids != [] && CheckId(ids[0], n).Err?
    ensures Encode(ids, n) == Err(CheckId(ids[0], n).error)
  {
    EncodeOk(ids, n);
    EncodeFirstFault(ids, n);
  }

  /** The "empty class" case: a line that is only an image path (with any
      surrounding whitespace) gives the all-zero label vector. */
  lemma EmptyClass(line: string, outputClass: nat)
    requires ' ' !in Strip(line)
    ensures ParseLine(line, outputClass) == Ok(Sample(Strip(line), Zeros(outputClass)))
  {
    SplitWord(Strip(line));
  }

  /** The decimal renderings of `ids`, one token per id. */
  function Shown(ids: seq<nat>): (r: seq<string>)
    ensures |r| == |ids|
  {
    seq(|ids|, i requires 0 <= i < |ids| => ShowNat(ids[i]))
  }

  /** The annotation line of an image and its class ids: `path id id ...`. */
  function Render(path: string, ids: seq<nat>): string {
    Join([path] + Shown(ids))
  }

  /** A path that survives the line's `strip().split(' ')` as one token: not
      empty, no space in it and no whitespace at either end (a tab inside,
      as in `a\tb.jpg`, is allowed). */
  predicate PlainPath(path: string) {
    path != [] && ' ' !in path && !IsSpace(path[0]) && !IsSpace(path[|path| - 1])
  }

  /** A plain path is the first token of its rendered line, and the rendered
      ids are the rest. */
  lemma RenderTokens(path: string, ids: seq<nat>)
    requires PlainPath(path)
    ensures Tokens(Render(path, ids)) == [path] + Shown(ids)
  {
    var ps := [path] + Shown(ids);
    var line := Join(ps);
    forall i | 0 <= i < |ps| ensures ps[i] != [] {
      if i > 0 {
        assert ps[i] == ShowNat(ids[i - 1]);
      }
    }
    JoinEnds(ps);
    var last := ps[|ps| - 1];
    assert !IsSpace(last[|last| - 1]) by {
      if |ps| > 1 {
        assert last == ShowNat(ids[|ids| - 1]);
        assert IsDigit(last[|last| - 1]);
      }
    }
    assert Trimmed(line);
    StripTrimmed(line);
    forall i | 0 <= i < |ps| ensures ' ' !in ps[i] {
      if i > 0 {
        assert ps[i] == ShowNat(ids[i - 1]);
        assert forall c :: c in ShowNat(ids[i - 1]) ==> IsDigit(c);
      }
    }
    SplitJoin(ps);
  }

  /** The rendered ids, all in range, encode to the multi-hot vector of the ids. */
  lemma EncodeShown(ids: seq<nat>, n: nat)
    requires forall i :: 0 <= i < |ids| ==> ids[i] < n
    ensures Encode(Shown(ids), n) == Ok(MultiHot((set x | x in ids), n))
  {
    var shown := Shown(ids);
    forall j | 0 <= j < |shown| ensures CheckId(shown[j], n) == Ok(ids[j]) {
      assert ids[j] in ids;
      ParseIntShowNat(ids[j]);
    }
    EncodeOk(shown, n);
    EncodeMultiHot(shown, n);
    forall k ensures k in IdSet(shown) <==> k in (set x | x in ids) {
      IdSetMembers(shown, k);
      if k in (set x | x in ids) {
        var i :| 0 <= i < |ids| && ids[i] == k;
        ParseIntShowNat(ids[i]);
        assert ParseInt(shown[i]) == Some(k);
      }
      if Names(shown, k) {
        var j :| 0 <= j < |shown| && ParseInt(shown[j]) == Some(k);
        ParseIntShowNat(ids[j]);
        assert ids[j] in ids;
      }
    }
    assert IdSet(shown) == (set x | x in ids);
  }

  /** Parsing the rendered line of a plain image path and a list
      of in-range class ids gives back the path and the multi-hot vector of
      exactly those ids, however they are ordered or repeated. */
  lemma RenderRoundTrip(path: string, ids: seq<nat>, n: nat)
    requires PlainPath(path)
    requires forall i :: 0 <= i < |ids| ==> ids[i] < n
    ensures ParseLine(Render(path, ids), n) == Ok(Sample(path, MultiHot((set x | x in ids), n)))
  {
    RenderTokens(path, ids);
    assert Tokens(Render(path, ids))[1..] == Shown(ids);
    EncodeShown(ids, n);
  }

  /** The first character of a join is that of its first piece, and the last
      that of its last piece, when those pieces are non-empty. */
  lemma {:induction false} JoinEnds(ps: seq<string>)
    requires |ps| >= 1 && forall i :: 0 <= i < |ps| ==> ps[i] != []
    ensures |Join(ps)| > 0 && Join(ps)[0] == ps[0][0]
    ensures Join(ps)[|Join(ps)| - 1] == ps[|ps| - 1][|ps[|ps| - 1]| - 1]
    decreases |ps|
  {
    if |ps| > 1 {
      JoinEnds(ps[1..]);
    }
  }

  /** The outcome of every line of an annotation file, in file order. */
  function LineResults(lines: seq<string>, outputClass: int): seq<Result<Sample, Fault>> {
    seq(|lines|, i requires 0 <= i < |lines| => ParseLine(lines[i], outputClass))
  }

  /** Line outcomes gathered in order: the samples of the lines, or, at the
      first line `i` that fails with `f`, the error `BadLine(i, f)`. */
  function Collect(rs: seq<Result<Sample, Fault>>): Result<seq<Sample>, LoadError>
    decreases |rs|
  {
    if rs == [] then Ok([])
    else
      match Collect(rs[..|rs| - 1])
      case Err(e) => Err(e)
      case Ok(samples) =>
        match rs[|rs| - 1]
        case Err(f) => Err(BadLine(|rs| - 1, f))
        case Ok(s) => Ok(samples + [s])
  }

  /** All lines of an annotation file, in order; the first line that fails
      stops the parse. Every line is parsed on its own, so gathering the line
      outcomes afterwards gives what the line-by-line loop gives. */
  function ParseLines(lines: seq<string>, outputClass: int): Result<seq<Sample>, LoadError> {
    Collect(LineResults(lines, outputClass))
  }

  /** Gathering succeeds if and only if every outcome is a success. */
  lemma {:induction false} CollectOk(rs: seq<Result<Sample, Fault>>)
    ensures Collect(rs).Ok? <==> forall i :: 0 <= i < |rs| ==> rs[i].Ok?
    decreases |rs|
  {
    if rs != [] {
      var init := rs[..|rs| - 1];
      CollectOk(init);
      assert forall i :: 0 <= i < |init| ==> init[i] == rs[i];
    }
  }

  /** A successful gathering holds the successful outcomes, one per entry, in order. */
  lemma {:induction false} CollectOrder(rs: seq<Result<Sample, Fault>>)
    requires Collect(rs).Ok?
    ensures |Collect(rs).value| == |rs|
    ensures forall i :: 0 <= i < |rs| ==> rs[i] == Ok(Collect(rs).value[i])
    decreases |rs|
  {
    if rs != [] {
      var init := rs[..|rs| - 1];
      CollectOrder(init);
      var prefix := Collect(init).value;
      assert Collect(rs).value == prefix + [rs[|rs| - 1].value];
      forall i | 0 <= i < |rs| ensures rs[i] == Ok(Collect(rs).value[i]) {
        if i < |init| {
          assert init[i] == rs[i];
        }
      }
    }
  }

  /** A failed gathering names the first failing entry, with its fault. */
  lemma {:induction false} CollectFirstError(rs: seq<Result<Sample, Fault>>)
    requires Collect(rs).Err?
    ensures var e := Collect(rs).error;
      && e.BadLine? && e.line < |rs| && rs[e.line] == Err(e.fault)
      && forall i :: 0 <= i < e.line ==> rs[i].Ok?
    decreases |rs|
  {
    var init := rs[..|rs| - 1];
    assert forall i :: 0 <= i < |init| ==> init[i] == rs[i];
    if Collect(init).Err? {
      CollectFirstError(init);
    } else {
      CollectOk(init);
    }
  }

  /** A failure among the first `i` entries is the failure of the whole gathering. */
  lemma {:induction false} CollectPrefixErr(rs: seq<Result<Sample, Fault>>, i: nat)
    requires i <= |rs| && Collect(rs[..i]).Err?
    ensures Collect(rs) == Collect(rs[..i])
    decreases |rs| - i
  {
    if i < |rs| {
      assert rs[..i + 1][..i] == rs[..i];
      CollectPrefixErr(rs, i + 1);
    } else {
      assert rs[..i] == rs;
    }
  }

  /** The file parses if and only if every line does. */
  lemma ParseLinesOk(lines: seq<string>, outputClass: int)
    ensures ParseLines(lines, outputClass).Ok? <==>
      forall i :: 0 <= i < |lines| ==> ParseLine(lines[i], outputClass).Ok?
  {
    var rs := LineResults(lines, outputClass);
    CollectOk(rs);
    assert forall i :: 0 <= i < |lines| ==> rs[i] == ParseLine(lines[i], outputClass);
  }

  /** One sample per line, sample `i` being the parse of line `i`. */
  lemma ParseLinesOrder(lines: seq<string>, outputClass: int)
    requires ParseLines(lines, outputClass).Ok?
    ensures |ParseLines(lines, outputClass).value| == |lines|
    ensures forall i :: 0 <= i < |lines| ==>
      ParseLine(lines[i], outputClass) == Ok(ParseLines(lines, outputClass).value[i])
  {
    var rs := LineResults(lines, outputClass);
    CollectOrder(rs);
    assert forall i :: 0 <= i < |lines| ==> rs[i] == ParseLine(lines[i], outputClass);
  }

  /** A failed parse names the first line that does not parse, with its fault. */
  lemma ParseLinesFirstError(lines: seq<string>, outputClass: int)
    requires ParseLines(lines, outputClass).Err?
    ensures var e := ParseLines(lines, outputClass).error;
      && e.BadLine? && e.line < |lines|
      && ParseLine(lines[e.line], outputClass) == Err(e.fault)
      && forall i :: 0 <= i < e.line ==> ParseLine(lines[i], outputClass).Ok?
  {
    var rs := LineResults(lines, outputClass);
    CollectFirstError(rs);
    var e := Collect(rs).error;
    assert rs[e.line] == ParseLine(lines[e.line], outputClass);
    assert forall i :: 0 <= i < e.line ==> rs[i] == ParseLine(lines[i], outputClass);
  }

  /** Lines after the first failing line do not change the outcome. */
  lemma ParseLinesPrefixErr(lines: seq<string>, i: nat, outputClass: int)
    requires i <= |lines| && ParseLines(lines[..i], outputClass).Err?
    ensures ParseLines(lines, outputClass) == ParseLines(lines[..i], outputClass)
  {
    var rs := LineResults(lines, outputClass);
    assert LineResults(lines[..i], outputClass) == rs[..i];
    CollectPrefixErr(rs, i);
  }

  /** The file `p1 k\n p2\n` (for instance `img1.jpg 0` and `img2.jpg` with
      three classes): the first image has exactly class `k`, the second, which
      lists no class, the all-zero label vector. */
  lemma TwoLineFile(p1: string, k: nat, p2: string, n: nat)
    requires PlainPath(p1) && PlainPath(p2) && k < n
    ensures ParseLines([p1 + " " + ShowNat(k) + "\n", p2 + "\n"], n)
         == Ok([Sample(p1, MultiHot({k}, n)), Sample(p2, Zeros(n))])
  {
    var l1, l2 := p1 + " " + ShowNat(k) + "\n", p2 + "\n";
    var s1, s2 := Sample(p1, MultiHot({k}, n)), Sample(p2, Zeros(n));
    OneIdLine(p1, k, n);
    PathOnlyLine(p2, n);
    ParseLinesAppend([], [], l1, s1, n);
    assert [] + [l1] == [l1] && [] + [s1] == [s1];
    ParseLinesAppend([l1], [s1], l2, s2, n);
    assert [l1] + [l2] == [l1, l2] && [s1] + [s2] == [s1, s2];
  }

  /** Appending a line that parses appends its sample. */
  lemma ParseLinesAppend(lines: seq<string>, samples: seq<Sample>, line: string, s: Sample, n: int)
    requires ParseLines(lines, n) == Ok(samples) && ParseLine(line, n) == Ok(s)
    ensures ParseLines(lines + [line], n) == Ok(samples + [s])
  {
    var rs := LineResults(lines + [line], n);
    assert rs[..|rs| - 1] == LineResults(lines, n);
  }

  /** The line `path\n` gives the all-zero label vector. */
  lemma PathOnlyLine(path: string, n: nat)
    requires PlainPath(path)
    ensures ParseLine(path + "\n", n) == Ok(Sample(path, Zeros(n)))
  {
    assert [] + path + "\n" == path + "\n";
    StripPadded([], path, "\n");
    StripTrimmed(path);
    EmptyClass(path + "\n", n);
  }

  /** The line `path k\n` gives the label vector with a single 1, at `k`. */
  lemma OneIdLine(path: string, k: nat, n: nat)
    requires PlainPath(path) && k < n
    ensures ParseLine(path + " " + ShowNat(k) + "\n", n) == Ok(Sample(path, MultiHot({k}, n)))
  {
    var ids := [k];
    assert Shown(ids) == [ShowNat(k)];
    assert Render(path, ids) == path + " " + ShowNat(k) by {
      assert [path] + Shown(ids) == [path, ShowNat(k)];
      assert [path, ShowNat(k)][1..] == [ShowNat(k)];
      assert Join([path, ShowNat(k)]) == path + " " + Join([ShowNat(k)]);
    }
    assert [] + Render(path, ids) + "\n" == path + " " + ShowNat(k) + "\n";
    StripPadded([], Render(path, ids), "\n");
    RenderRoundTrip(path, ids, n);
    assert (set x | x in ids) == {k};
  }

  /** `_load_train` / `_load_val` once the file has been read: tokenise every
      line, preallocate the sample list, then for each line store its path and
      its label vector. */
  method ParseAnnotations(lines: seq<string>, outputClass: int) returns (r: Result<seq<Sample>, LoadError>)
    ensures r == ParseLines(lines, outputClass)
  {
    var txt := seq(|lines|, i requires 0 <= i < |lines| => Tokens(lines[i]));
    var dataList := new Sample[|txt|](_ => Sample([], []));
    ghost var rs := LineResults(lines, outputClass);
    for i := 0 to |txt|
      invariant Collect(rs[..i]) == Ok(dataList[..i])
    {
      assert rs[..i + 1][..i] == rs[..i];
      if outputClass < 0 {
        r := Err(BadLine(i, NegativeDimensions(outputClass)));
        assert rs[i] == Err(NegativeDimensions(outputClass));
        assert Collect(rs[..i + 1]) == r;
        CollectPrefixErr(rs, i + 1);
        return;
      }
      var labels := FillLabels(txt[i][1..], outputClass);
      assert rs[i] == if labels.Err? then Err(labels.error) else Ok(Sample(txt[i][0], labels.value));
      if labels.Err? {
        r := Err(BadLine(i, labels.error));
        assert Collect(rs[..i + 1]) == r;
        CollectPrefixErr(rs, i + 1);
        return;
      }
      ghost var before := dataList[..i];
      dataList[i] := Sample(txt[i][0], labels.value);
      assert dataList[..i + 1] == before + [Sample(txt[i][0], labels.value)];
    }
    assert rs[..|txt|] == rs && dataList[..|txt|] == dataList[..];
    r := Ok(dataList[..]);
  }

  /** The inner loop of `_load_train`: a fresh zero vector of `n` entries,
      written `labels[int(j)] = 1` for each class token `j` in turn. */
  method FillLabels(ids: seq<string>, n: nat) returns (r: Result<seq<int>, Fault>)
    ensures r == Encode(ids, n)
  {
    var labels := new int[n](_ => 0);
    assert labels[..] == Zeros(n);
    assert ids[..0] == [];
    for j := 0 to |ids|
      invariant Encode(ids[..j], n) == Ok(labels[..])
    {
      assert ids[..j + 1][..j] == ids[..j];
      var k := ParseInt(ids[j]);
      if k.None? {
        r := Err(InvalidLiteral(ids[j]));
      } else if k.value < 0 {
        r := Err(NegativeIndex(k.value));
      } else if k.value >= labels.Length {
        r := Err(IndexOutOfBounds(k.value, labels.Length));
      } else {
        labels[k.value] := 1;
        continue;
      }
      assert Encode(ids[..j + 1], n) == r;
      EncodePrefixErr(ids, j + 1, n);
      assert ids[..|ids|] == ids;
      return;
    }
    assert ids[..|ids|] == ids;
    r := Ok(labels[..]);
  }

  /** An error in a prefix of the class tokens is the error of the whole line. */
  lemma {:induction false} EncodePrefixErr(ids: seq<string>, j: nat, n: nat)
    requires j <= |ids| && Encode(ids[..j], n).Err?
    ensures Encode(ids, n) == Encode(ids[..j], n)
    decreases |ids| - j
  {
    if j < |ids| {
      assert ids[..j + 1][..j] == ids[..j];
      EncodePrefixErr(ids, j + 1, n);
    } else {
      assert ids[..j] == ids;
    }
  }
}
