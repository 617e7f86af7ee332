/** `WriteTFRecord.WriteTFRecord`: the image paths and label vectors are consumed from the
    caller's lists `spilt` at a time, and each group becomes the record file
    `<file_name><number>.tfrecords` under the target directory. */
module ShardWriter {
  import opened Wrappers
  import opened PyStr
  import opened Settings
  import opened Canvas

  // ================================================================ Python lists

  /** A Python list that a callee mutates, so that the caller sees the change. */
  class PyList<T(==)> {
    var items: seq<T>

    constructor(xs: seq<T>)
      ensures items == xs
    {
      items := xs;
    }

    /** `list.remove(x)`: drops the first element equal to `x`. `false` stands for the
        `ValueError` raised when there is none, which leaves the list as it was. */
    method Remove(x: T) returns (found: bool)
      modifies this
      ensures found <==> x in old(items)
      ensures items == RemoveFirst(old(items), x)
    {
      var i := 0;
      while i < |items| && items[i] != x
        invariant 0 <= i <= |items| && x !in items[..i]
      {
        i := i + 1;
      }
      if i == |items| {
        assert items[..i] == items;
        return false;
      }
      RemoveFirstAt(items, x, i);
      items := items[..i] + items[i + 1..];
      found := true;
    }
  }

  function RemoveFirst<T(==)>(xs: seq<T>, x: T): (r: seq<T>)
    ensures x !in xs ==> r == xs
    ensures x in xs ==> |r| == |xs| - 1 && multiset(r) == multiset(xs) - multiset{x}
    ensures xs != [] && xs[0] == x ==> r == xs[1..]
  {
    if xs == [] then []
    else if xs[0] == x then
      assert xs == [xs[0]] + xs[1..];
      xs[1..]
    else
      var r := [xs[0]] + RemoveFirst(xs[1..], x);
      assert xs == [xs[0]] + xs[1..];
      r
  }

  /** Removing the first `x` cuts the list at its first occurrence. */
  lemma {:induction false} RemoveFirstAt<T>(xs: seq<T>, x: T, i: nat)
    requires i < |xs| && xs[i] == x && x !in xs[..i]
    ensures RemoveFirst(xs, x) == xs[..i] + xs[i + 1..]
  {
    if i > 0 {
      assert xs[..i] == [xs[0]] + xs[1..i];
      assert xs[1..][..i - 1] == xs[1..i];
      assert xs[0] != x;
      assert RemoveFirst(xs, x) == [xs[0]] + RemoveFirst(xs[1..], x);
      RemoveFirstAt(xs[1..], x, i - 1);
      assert xs[1..][i..] == xs[i + 1..];
    }
  }

  // ================================================================ records

  function Min(a: int, b: int): int {
    if a <= b then a else b
  }

  /** `zip(xs, ys)`: pairs up to the shorter of the two. */
  function Zip<A, B>(xs: seq<A>, ys: seq<B>): (r: seq<(A, B)>)
    ensures |r| == Min(|xs|, |ys|)
    ensures forall i :: 0 <= i < |r| ==> r[i] == (xs[i], ys[i])
  {
    seq(Min(|xs|, |ys|), i requires 0 <= i < Min(|xs|, |ys|) => (xs[i], ys[i]))
  }

  /** The arguments of a `WriteTFRecord` call other than the two lists (`TFRecord_path`,
      `file_name`, `spilt`, `mode`), and what the call reads from elsewhere: the size of
      every path that opens as an image, and the settings. */
  datatype Job = Job(dir: string, fileName: string, spilt: nat, mode: Mode, images: map<string, Size>, cfg: Config)

  /** The `label` feature of a record: an `Int64List` in CTC mode and a `FloatList` in every
      other mode (the values of the label vectors are whole numbers either way). */
  datatype Feature = Int64List(values: seq<int>) | FloatList(values: seq<int>)

  /** A `tf.train.Example` with the padded image (before JPEG encoding) and the label. */
  datatype Example = Example(image: Canvas, feature: Feature)

  /** The exceptions `pad_image` lets through: an image path that does not open, and a
      resize to an empty size. */
  datatype WriteError = CannotOpen(path: string) | BadImage(path: string, error: ImageError)

  function LabelFeature(vec: seq<int>, mode: Mode): (f: Feature)
    ensures f.values == vec && (f.Int64List? <==> mode == Ctc)
  {
    if mode == Ctc then Int64List(vec) else FloatList(vec)
  }

  /** The record for one image and its label. */
  function MakeExample(path: string, vec: seq<int>, job: Job)
    : (r: Result<Example, WriteError>)
    ensures r.Ok? <==> path in job.images && Pad(job.images[path], job.cfg.imageHeight, job.cfg.imageWidth).Ok?
    ensures r.Ok? ==> Shape(r.value.image) == [job.cfg.imageHeight, job.cfg.imageWidth, 3] && r.value.feature.values == vec
  {
    if path !in job.images then Err(CannotOpen(path))
    else match Pad(job.images[path], job.cfg.imageHeight, job.cfg.imageWidth)
      case Err(e) => Err(BadImage(path, e))
      case Ok(c) => Ok(Example(c, LabelFeature(vec, job.mode)))
  }

  /** The records a writer has written to one file when the inner loop stops: every pair in
      order, or those before the first failing image together with its error. */
  function WriteShard(pairs: seq<(string, seq<int>)>, job: Job)
    : (r: (seq<Example>, Result<(), WriteError>))
    ensures |r.0| <= |pairs|
    ensures r.1.Ok? <==> |r.0| == |pairs|
  {
    if pairs == [] then ([], Ok(()))
    else
      var before := WriteShard(pairs[..|pairs| - 1], job);
      var last := pairs[|pairs| - 1];
      if before.1.Err? then before
      else match MakeExample(last.0, last.1, job)
        case Err(e) => (before.0, Err(e))
        case Ok(x) => (before.0 + [x], Ok(()))
  }

  /** Pair `i` is the first whose record cannot be built, and it fails with `e`. */
  predicate FirstFailure(pairs: seq<(string, seq<int>)>, i: int, e: WriteError, job: Job) {
    0 <= i < |pairs| && MakeExample(pairs[i].0, pairs[i].1, job) == Err(e) &&
    forall j :: 0 <= j < i ==> MakeExample(pairs[j].0, pairs[j].1, job).Ok?
  }

  /** A file is written completely exactly when every image in its group opens and fits;
      it then holds one record per pair, in order. Otherwise the error is that of the first
      failing pair. */
  lemma {:induction false} WriteShardComplete(pairs: seq<(string, seq<int>)>, job: Job)
    ensures var r := WriteShard(pairs, job);
      r.1.Ok? <==> forall i :: 0 <= i < |pairs| ==> MakeExample(pairs[i].0, pairs[i].1, job).Ok?
    ensures var r := WriteShard(pairs, job);
      r.1.Ok? ==> (|r.0| == |pairs| &&
        forall i :: 0 <= i < |pairs| ==> MakeExample(pairs[i].0, pairs[i].1, job) == Ok(r.0[i]))
    ensures var r := WriteShard(pairs, job);
      r.1.Err? ==> exists i :: FirstFailure(pairs, i, r.1.error, job)
  {
    if pairs != [] {
      var init := pairs[..|pairs| - 1];
      WriteShardComplete(init, job);
      assert forall i :: 0 <= i < |pairs| - 1 ==> init[i] == pairs[i];
      var r := WriteShard(pairs, job);
      if WriteShard(init, job).1.Err? {
        var i :| FirstFailure(init, i, WriteShard(init, job).1.error, job);
        assert FirstFailure(pairs, i, r.1.error, job);
      } else if r.1.Err? {
        assert FirstFailure(pairs, |pairs| - 1, r.1.error, job);
      }
    }
  }

  /** Once an image has failed, the writer is abandoned: nothing more is written. */
  lemma {:induction false} WriteShardStopsAtError(pairs: seq<(string, seq<int>)>, j: nat, job: Job)
    requires j <= |pairs| && WriteShard(pairs[..j], job).1.Err?
    ensures WriteShard(pairs, job) == WriteShard(pairs[..j], job)
    decreases |pairs| - j
  {
    if j < |pairs| {
      assert pairs[..j + 1][..j] == pairs[..j];
      WriteShardStopsAtError(pairs, j + 1, job);
    } else {
      assert pairs[..j] == pairs;
    }
  }

  // ================================================================ the shard loop

  /** `os.path.join(TFRecord_path, file_name + str(number) + '.tfrecords')`. */
  function ShardPath(dir: string, fileName: string, number: nat): string {
    PathJoin(dir, fileName + Decimal(number) + ".tfrecords")
  }

  /** For a plain `file_name`, shard `number` is the file `<file_name><number>.tfrecords`
      in the target directory. */
  lemma ShardPathName(dir: string, fileName: string, number: nat)
    requires '/' !in fileName
    ensures Basename(ShardPath(dir, fileName, number)) == fileName + Decimal(number) + ".tfrecords"
  {
    DecimalValue(number);
    assert forall i :: 0 <= i < |Decimal(number)| ==> Decimal(number)[i] != '/';
    BasenameOfJoin(dir, fileName + Decimal(number) + ".tfrecords");
  }

  /** Distinct shard numbers give distinct files, so no shard overwrites another. */
  lemma ShardPathInjective(dir: string, fileName: string, a: nat, b: nat)
    requires ShardPath(dir, fileName, a) == ShardPath(dir, fileName, b)
    ensures a == b
  {
    var na, nb := fileName + Decimal(a) + ".tfrecords", fileName + Decimal(b) + ".tfrecords";
    assert (na[0] == '/') == (nb[0] == '/') by {
      if fileName == [] {
        assert na[0] == Decimal(a)[0] && nb[0] == Decimal(b)[0];
      } else {
        assert na[0] == fileName[0] && nb[0] == fileName[0];
      }
    }
    assert na == nb by {
      var p := PathJoin(dir, na);
      if na[0] == '/' {
      } else if dir == [] || dir[|dir| - 1] == '/' {
        assert p == dir + na && p == dir + nb;
        assert na == p[|dir|..] && nb == p[|dir|..];
      } else {
        assert p == dir + "/" + na && p == dir + "/" + nb;
        assert na == p[|dir| + 1..] && nb == p[|dir| + 1..];
      }
    }
    assert |Decimal(a)| == |Decimal(b)|;
    assert Decimal(a) == na[|fileName|..|fileName| + |Decimal(a)|];
    assert Decimal(b) == nb[|fileName|..|fileName| + |Decimal(b)|];
    DecimalInjective(a, b);
  }

  /** The lists and the files when `WriteTFRecord` returns or raises. */
  datatype Outcome = Outcome(files: map<string, seq<Example>>, datasets: seq<string>, labels: seq<seq<int>>,
                             result: Result<(), WriteError>)

  /** The `while True` loop from the state reached after `number` files: while `datasets` is
      not empty, the next `spilt` paths and the next `spilt` labels are taken off the lists,
      file `number + 1` is created, and their zip is written to it. */
  function Run(files: map<string, seq<Example>>, xs: seq<string>, ys: seq<seq<int>>, number: nat, job: Job): (r: Outcome)
    requires job.spilt >= 1
    ensures r.result.Ok? ==> r.datasets == []
    ensures files.Keys <= r.files.Keys
    decreases |xs|
  {
    if xs == [] then Outcome(files, xs, ys, Ok(()))
    else
      var take, takeL := Min(job.spilt, |xs|), Min(job.spilt, |ys|);
      var w := WriteShard(Zip(xs[..take], ys[..takeL]), job);
      var next := files[ShardPath(job.dir, job.fileName, number + 1) := w.0];
      if w.1.Err? then Outcome(next, xs[take..], ys[takeL..], w.1)
      else Run(next, xs[take..], ys[takeL..], number + 1, job)
  }

  /** The filesystem the records are written to: directories and record files. */
  class Filesystem {
    var dirs: set<string>
    var files: map<string, seq<Example>>

    constructor(dirs0: set<string>, files0: map<string, seq<Example>>)
      ensures dirs == dirs0 && files == files0
    {
      dirs, files := dirs0, files0;
    }
  }

  /** `WriteTFRecord.WriteTFRecord(TFRecord_path, datasets, labels, file_name, spilt, mode)`.
      `spilt` must be positive: with 0 the source loops for ever, creating empty files. */
  method WriteTFRecord(fs: Filesystem, datasets: PyList<string>, labels: PyList<seq<int>>, job: Job)
    returns (r: Result<(), WriteError>)
    requires job.spilt >= 1
    modifies fs, datasets, labels
    ensures fs.dirs == old(fs.dirs) + {job.dir}
    ensures Outcome(fs.files, datasets.items, labels.items, r) ==
      Run(old(fs.files), old(datasets.items), old(labels.items), 0, job)
  {
    if job.dir !in fs.dirs {
      fs.dirs := fs.dirs + {job.dir};
    }
    var number: nat := 0;
    while true
      invariant fs.dirs == old(fs.dirs) + {job.dir}
      invariant Run(fs.files, datasets.items, labels.items, number, job) ==
        Run(old(fs.files), old(datasets.items), old(labels.items), 0, job)
      decreases |datasets.items|
    {
      if datasets.items == [] {
        return Ok(());
      }
      number := number + 1;
      var imageList := TakeGroup(datasets, job.spilt);
      var labelList := TakeGroup(labels, job.spilt);
      var path := ShardPath(job.dir, job.fileName, number);
      r := WriteShardFile(fs, path, Zip(imageList, labelList), job);
      if r.Err? {
        return;
      }
    }
  }

  /** `list[:spilt]`, then `list.remove(i)` for each `i` of that slice: the group taken is
      the front of the list, and the list keeps the rest. */
  method TakeGroup<T(==)>(list: PyList<T>, spilt: nat) returns (group: seq<T>)
    modifies list
    ensures group == old(list.items)[..Min(spilt, |old(list.items)|)]
    ensures list.items == old(list.items)[Min(spilt, |old(list.items)|)..]
  {
    ghost var xs := list.items;
    group := list.items[..Min(spilt, |list.items|)];
    for j := 0 to |group|
      invariant list.items == xs[j..]
    {
      var found := list.Remove(group[j]);
    }
  }

  /** `pad_image(image)` and the `tf.train.Example` built around its bytes. */
  method BuildExample(path: string, vec: seq<int>, job: Job)
    returns (r: Result<Example, WriteError>)
    ensures r == MakeExample(path, vec, job)
  {
    if path !in job.images {
      return Err(CannotOpen(path));
    }
    var canvas := PadImage(job.images[path], job.cfg.imageHeight, job.cfg.imageWidth);
    if canvas.Err? {
      return Err(BadImage(path, canvas.error));
    }
    r := Ok(Example(canvas.value, LabelFeature(vec, job.mode)));
  }

  /** The body of one shard: `tf.io.TFRecordWriter(filename)` creates the file empty, then
      each pair is padded and written, the first failing image ending the call. */
  method WriteShardFile(fs: Filesystem, path: string, pairs: seq<(string, seq<int>)>, job: Job)
    returns (r: Result<(), WriteError>)
    modifies fs
    ensures fs.dirs == old(fs.dirs)
    ensures fs.files == old(fs.files)[path := WriteShard(pairs, job).0]
    ensures r == WriteShard(pairs, job).1
  {
    fs.files := fs.files[path := []];
    ghost var written: seq<Example> := [];
    for j := 0 to |pairs|
      invariant fs.dirs == old(fs.dirs)
      invariant fs.files == old(fs.files)[path := written]
      invariant WriteShard(pairs[..j], job) == (written, Ok(()))
    {
      assert pairs[..j + 1][..j] == pairs[..j] && pairs[..j + 1][j] == pairs[j];
      var example := BuildExample(pairs[j].0, pairs[j].1, job);
      if example.Err? {
        assert WriteShard(pairs[..j + 1], job) == (written, Err(example.error));
        WriteShardStopsAtError(pairs, j + 1, job);
        return Err(example.error);
      }
      written := written + [example.value];
      fs.files := fs.files[path := fs.files[path] + [example.value]];
    }
    assert pairs[..|pairs|] == pairs;
    r := Ok(());
  }

  // ================================================================ what the loop writes

  /** The groups of pairs the loop writes, one group per file: the zip of the next `spilt`
      paths with the next `spilt` labels, until the paths run out. */
  function Shards(xs: seq<string>, ys: seq<seq<int>>, spilt: nat): seq<seq<(string, seq<int>)>>
    requires spilt >= 1
    decreases |xs|
  {
    if xs == [] then []
    else
      var take, takeL := Min(spilt, |xs|), Min(spilt, |ys|);
      [Zip(xs[..take], ys[..takeL])] + Shards(xs[take..], ys[takeL..], spilt)
  }

  function Flatten<T>(xss: seq<seq<T>>): seq<T> {
    if xss == [] then [] else xss[0] + Flatten(xss[1..])
  }

  /** Cutting both lists at the same place (or the labels at their end) cuts their zip there. */
  lemma ZipSplit<A, B>(xs: seq<A>, ys: seq<B>, t: nat, tL: nat)
    requires t <= |xs| && tL <= |ys|
    requires tL == t || (tL == |ys| && tL <= t) || (t == |xs| && t <= tL)
    ensures Zip(xs, ys) == Zip(xs[..t], ys[..tL]) + Zip(xs[t..], ys[tL..])
  {
    var a, b := Zip(xs[..t], ys[..tL]), Zip(xs[t..], ys[tL..]);
    assert |a| == Min(t, tL) && |b| == Min(|xs| - t, |ys| - tL);
    assert |a| + |b| == |Zip(xs, ys)|;
    forall i | 0 <= i < |Zip(xs, ys)| ensures Zip(xs, ys)[i] == (a + b)[i] {
      if i >= |a| {
        assert (a + b)[i] == b[i - |a|];
      }
    }
  }

  /** The files hold, in order, every pair of `zip(datasets, labels)`. */
  lemma {:induction false} ShardsCoverZip(xs: seq<string>, ys: seq<seq<int>>, spilt: nat)
    requires spilt >= 1
    ensures Flatten(Shards(xs, ys, spilt)) == Zip(xs, ys)
    decreases |xs|
  {
    if xs != [] {
      var take, takeL := Min(spilt, |xs|), Min(spilt, |ys|);
      ShardsCoverZip(xs[take..], ys[takeL..], spilt);
      ZipSplit(xs, ys, take, takeL);
      assert Shards(xs, ys, spilt)[1..] == Shards(xs[take..], ys[takeL..], spilt);
    }
  }

  /** There are ceil(len(datasets) / spilt) files. */
  lemma {:induction false} ShardsCount(xs: seq<string>, ys: seq<seq<int>>, spilt: nat)
    requires spilt >= 1
    ensures xs == [] <==> Shards(xs, ys, spilt) == []
    ensures xs != [] ==> (|Shards(xs, ys, spilt)| - 1) * spilt < |xs| <= |Shards(xs, ys, spilt)| * spilt
    decreases |xs|
  {
    if xs != [] {
      var take, takeL := Min(spilt, |xs|), Min(spilt, |ys|);
      ShardsCount(xs[take..], ys[takeL..], spilt);
      var m := |Shards(xs[take..], ys[takeL..], spilt)|;
      assert |Shards(xs, ys, spilt)| == m + 1;
      MulStep(m, spilt);
      if m > 0 {
        MulStep(m - 1, spilt);
      }
    }
  }

  lemma MulStep(m: nat, s: nat)
    ensures (m + 1) * s == m * s + s && m * s >= 0
  {
  }

  /** No file holds more than `spilt` records, and when there are at least as many labels
      as paths every file but the last holds exactly `spilt`. */
  lemma {:induction false} ShardsSizes(xs: seq<string>, ys: seq<seq<int>>, spilt: nat)
    requires spilt >= 1
    ensures forall k :: 0 <= k < |Shards(xs, ys, spilt)| ==> |Shards(xs, ys, spilt)[k]| <= spilt
    ensures |xs| <= |ys| ==>
      forall k :: 0 <= k < |Shards(xs, ys, spilt)| - 1 ==> |Shards(xs, ys, spilt)[k]| == spilt
    decreases |xs|
  {
    if xs != [] {
      var take, takeL := Min(spilt, |xs|), Min(spilt, |ys|);
      var rest := Shards(xs[take..], ys[takeL..], spilt);
      ShardsSizes(xs[take..], ys[takeL..], spilt);
      assert Shards(xs, ys, spilt) == [Zip(xs[..take], ys[..takeL])] + rest;
      if |xs| <= |ys| && rest != [] {
        assert take == spilt && takeL == spilt;
      }
    }
  }

  /** The files after the loop: file `number + k + 1` holds what was written for group `k`. */
  function Store(files: map<string, seq<Example>>, number: nat, shards: seq<seq<(string, seq<int>)>>, job: Job)
    : map<string, seq<Example>>
    decreases |shards|
  {
    if shards == [] then files
    else Store(files[ShardPath(job.dir, job.fileName, number + 1) := WriteShard(shards[0], job).0],
               number + 1, shards[1..], job)
  }

  /** The paths of files `from + 1` to `from + count`. */
  function ShardPaths(dir: string, fileName: string, from: nat, count: nat): set<string> {
    set k | from < k <= from + count :: ShardPath(dir, fileName, k)
  }

  /** Files `from + 1` to `from + count` are file `from + 1` and, apart from it, files
      `from + 2` to `from + count`. */
  lemma ShardPathsSplit(dir: string, fileName: string, from: nat, count: nat)
    requires count >= 1
    ensures ShardPaths(dir, fileName, from, count) ==
      {ShardPath(dir, fileName, from + 1)} + ShardPaths(dir, fileName, from + 1, count - 1)
    ensures ShardPath(dir, fileName, from + 1) !in ShardPaths(dir, fileName, from + 1, count - 1)
  {
    var first := ShardPath(dir, fileName, from + 1);
    var later := ShardPaths(dir, fileName, from + 1, count - 1);
    forall p | p in ShardPaths(dir, fileName, from, count) ensures p in {first} + later {
      var k :| from < k <= from + count && p == ShardPath(dir, fileName, k);
      if k != from + 1 {
        assert p in later;
      }
    }
    forall p | p in later ensures p != first {
      var k :| from + 1 < k <= from + count && p == ShardPath(dir, fileName, k);
      if p == first {
        ShardPathInjective(dir, fileName, k, from + 1);
      }
    }
  }

  /** The loop adds exactly the files `number + 1` to `number + |shards|`. */
  lemma {:induction false} StoreKeys(files: map<string, seq<Example>>, number: nat, shards: seq<seq<(string, seq<int>)>>, job: Job)
    ensures Store(files, number, shards, job).Keys ==
      files.Keys + ShardPaths(job.dir, job.fileName, number, |shards|)
    decreases |shards|
  {
    if shards == [] {
      assert ShardPaths(job.dir, job.fileName, number, 0) == {};
    } else {
      var next := files[ShardPath(job.dir, job.fileName, number + 1) := WriteShard(shards[0], job).0];
      StoreKeys(next, number + 1, shards[1..], job);
      ShardPathsSplit(job.dir, job.fileName, number, |shards|);
    }
  }

  /** Every file that is not one of the new ones is left as it was. */
  lemma {:induction false} StoreKeepsOthers(files: map<string, seq<Example>>, number: nat, shards: seq<seq<(string, seq<int>)>>, job: Job,
                                            p: string)
    requires p in files && p !in ShardPaths(job.dir, job.fileName, number, |shards|)
    ensures p in Store(files, number, shards, job)
    ensures Store(files, number, shards, job)[p] == files[p]
    decreases |shards|
  {
    if shards != [] {
      var next := files[ShardPath(job.dir, job.fileName, number + 1) := WriteShard(shards[0], job).0];
      ShardPathsSplit(job.dir, job.fileName, number, |shards|);
      StoreKeepsOthers(next, number + 1, shards[1..], job, p);
    }
  }

  /** File `number + k + 1` holds what was written for group `k`: no later group overwrites
      it. */
  lemma {:induction false} StoreAt(files: map<string, seq<Example>>, number: nat, shards: seq<seq<(string, seq<int>)>>, job: Job,
                                   k: nat)
    requires k < |shards|
    ensures ShardPath(job.dir, job.fileName, number + k + 1) in Store(files, number, shards, job)
    ensures Store(files, number, shards, job)[ShardPath(job.dir, job.fileName, number + k + 1)] ==
      WriteShard(shards[k], job).0
    decreases |shards|
  {
    var first := ShardPath(job.dir, job.fileName, number + 1);
    var next := files[first := WriteShard(shards[0], job).0];
    if k == 0 {
      ShardPathsSplit(job.dir, job.fileName, number, |shards|);
      StoreKeepsOthers(next, number + 1, shards[1..], job, first);
    } else {
      StoreAt(next, number + 1, shards[1..], job, k - 1);
      assert shards[1..][k - 1] == shards[k];
      assert number + 1 + (k - 1) + 1 == number + k + 1;
    }
  }

  /** All pairs of `pairs` make records. */
  predicate AllFit(pairs: seq<(string, seq<int>)>, job: Job) {
    forall i :: 0 <= i < |pairs| ==> MakeExample(pairs[i].0, pairs[i].1, job).Ok?
  }

  /** `zip(datasets, labels)` is the first group's pairs followed by the zip of what is left. */
  lemma ZipOfRest(xs: seq<string>, ys: seq<seq<int>>, spilt: nat)
    requires spilt >= 1 && xs != []
    ensures var take, takeL := Min(spilt, |xs|), Min(spilt, |ys|);
      Zip(xs, ys) == Zip(xs[..take], ys[..takeL]) + Zip(xs[take..], ys[takeL..])
  {
    ZipSplit(xs, ys, Min(spilt, |xs|), Min(spilt, |ys|));
  }

  /** `WriteTFRecord` returns normally exactly when every path paired with a label opens
      and fits. */
  lemma {:induction false} RunSucceeds(files: map<string, seq<Example>>, xs: seq<string>, ys: seq<seq<int>>, number: nat, job: Job)
    requires job.spilt >= 1
    ensures Run(files, xs, ys, number, job).result.Ok? <==>
      AllFit(Zip(xs, ys), job)
    decreases |xs|
  {
    if xs != [] {
      var take, takeL := Min(job.spilt, |xs|), Min(job.spilt, |ys|);
      var group := Zip(xs[..take], ys[..takeL]);
      var w := WriteShard(group, job);
      var next := files[ShardPath(job.dir, job.fileName, number + 1) := w.0];
      ZipOfRest(xs, ys, job.spilt);
      WriteShardComplete(group, job);
      RunSucceeds(next, xs[take..], ys[takeL..], number + 1, job);
      AllFitAppend(group, Zip(xs[take..], ys[takeL..]), job);
    }
  }

  lemma AllFitAppend(a: seq<(string, seq<int>)>, b: seq<(string, seq<int>)>, job: Job)
    ensures AllFit(a + b, job) <==> AllFit(a, job) && AllFit(b, job)
  {
    if AllFit(a, job) && AllFit(b, job) {
      forall i | 0 <= i < |a + b| ensures MakeExample((a + b)[i].0, (a + b)[i].1, job).Ok? {
        if i >= |a| {
          assert (a + b)[i] == b[i - |a|];
        }
      }
    }
    if AllFit(a + b, job) {
      forall i | 0 <= i < |a| ensures MakeExample(a[i].0, a[i].1, job).Ok? {
        assert (a + b)[i] == a[i];
      }
      forall i | 0 <= i < |b| ensures MakeExample(b[i].0, b[i].1, job).Ok? {
        assert (a + b)[|a| + i] == b[i];
      }
    }
  }

  lemma FirstFailureAppend(a: seq<(string, seq<int>)>, b: seq<(string, seq<int>)>, i: int, e: WriteError, job: Job)
    ensures FirstFailure(a, i, e, job) ==> FirstFailure(a + b, i, e, job)
    ensures AllFit(a, job) && FirstFailure(b, i, e, job) ==> FirstFailure(a + b, |a| + i, e, job)
  {
    if FirstFailure(a, i, e, job) {
      assert forall j :: 0 <= j <= i ==> (a + b)[j] == a[j];
    }
    if AllFit(a, job) && FirstFailure(b, i, e, job) {
      assert (a + b)[|a| + i] == b[i];
      forall j | 0 <= j < |a| + i ensures MakeExample((a + b)[j].0, (a + b)[j].1, job).Ok? {
        if j >= |a| {
          assert (a + b)[j] == b[j - |a|];
        } else {
          assert (a + b)[j] == a[j];
        }
      }
    }
  }

  /** When it raises, the error is that of the first pair, in zip order, that fails. */
  lemma {:induction false} RunFirstFailure(files: map<string, seq<Example>>, xs: seq<string>, ys: seq<seq<int>>, number: nat, job: Job)
    requires job.spilt >= 1
    ensures var o := Run(files, xs, ys, number, job);
      o.result.Err? ==> exists i :: FirstFailure(Zip(xs, ys), i, o.result.error, job)
    decreases |xs|
  {
    if xs != [] {
      var take, takeL := Min(job.spilt, |xs|), Min(job.spilt, |ys|);
      var group := Zip(xs[..take], ys[..takeL]);
      var rest := Zip(xs[take..], ys[takeL..]);
      var w := WriteShard(group, job);
      var next := files[ShardPath(job.dir, job.fileName, number + 1) := w.0];
      ZipOfRest(xs, ys, job.spilt);
      WriteShardComplete(group, job);
      if w.1.Err? {
        assert Run(files, xs, ys, number, job).result == w.1;
        var i :| FirstFailure(group, i, w.1.error, job);
        FirstFailureAppend(group, rest, i, w.1.error, job);
      } else {
        assert Run(files, xs, ys, number, job) == Run(next, xs[take..], ys[takeL..], number + 1, job);
        RunFirstFailure(next, xs[take..], ys[takeL..], number + 1, job);
        var o := Run(next, xs[take..], ys[takeL..], number + 1, job);
        if o.result.Err? {
          var i :| FirstFailure(rest, i, o.result.error, job);
          FirstFailureAppend(group, rest, i, o.result.error, job);
        }
      }
    }
  }

  lemma LabelsTaken(ys: seq<seq<int>>, spilt: nat, m: nat)
    requires spilt >= 1
    ensures var ys' := ys[Min(spilt, |ys|)..];
      ys'[Min(|ys'|, m * spilt)..] == ys[Min(|ys|, (m + 1) * spilt)..]
  {
    MulStep(m, spilt);
    if |ys| >= spilt {
      assert ys[spilt..][Min(|ys| - spilt, m * spilt)..] == ys[spilt + Min(|ys| - spilt, m * spilt)..];
    }
  }

  /** After a normal return `datasets` is empty, ceil(n / job.spilt) * job.spilt labels (or all of
      them) have been taken off `labels`, and the groups of `Shards` are in consecutive
      files. */
  lemma {:induction false} RunResult(files: map<string, seq<Example>>, xs: seq<string>, ys: seq<seq<int>>, number: nat, job: Job)
    requires job.spilt >= 1
    requires Run(files, xs, ys, number, job).result.Ok?
    ensures Run(files, xs, ys, number, job) ==
      Outcome(Store(files, number, Shards(xs, ys, job.spilt), job),
              [], ys[Min(|ys|, |Shards(xs, ys, job.spilt)| * job.spilt)..], Ok(()))
    decreases |xs|
  {
    if xs != [] {
      var take, takeL := Min(job.spilt, |xs|), Min(job.spilt, |ys|);
      var xs', ys' := xs[take..], ys[takeL..];
      var w := WriteShard(Zip(xs[..take], ys[..takeL]), job);
      var next := files[ShardPath(job.dir, job.fileName, number + 1) := w.0];
      assert Run(files, xs, ys, number, job) ==
        Run(next, xs', ys', number + 1, job);
      RunResult(next, xs', ys', number + 1, job);
      var shards := Shards(xs, ys, job.spilt);
      assert shards == [Zip(xs[..take], ys[..takeL])] + Shards(xs', ys', job.spilt);
      assert shards[1..] == Shards(xs', ys', job.spilt);
      assert Store(files, number, shards, job) ==
        Store(next, number + 1, Shards(xs', ys', job.spilt), job);
      var m := |Shards(xs', ys', job.spilt)|;
      MulStep(m, job.spilt);
      LabelsTaken(ys, job.spilt, m);
    }
  }
}
