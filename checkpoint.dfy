/** `CallBack.calculate_the_best_weight`: the weights file training and prediction resume
    from, chosen among the files `ModelCheckpoint` wrote into the checkpoint directory. */
module Checkpoint {
  import opened Wrappers
  import opened PyStr

  /** The exceptions the selection raises on a malformed file name. */
  datatype CheckpointError =
    | NotANumber(field: string)  // `float(field)` raises `ValueError`
    | NoLossField(path: string)  // `i[-2]` raises `IndexError`

  /** The `-`-separated fields of a file name without its directory and extension. */
  function Fields(path: string): (r: seq<string>)
    ensures |r| >= 1
  {
    SplitOn(Stem(path), '-')
  }

  /** A name has a second field exactly when its stem holds a `-`; otherwise its one field
      is the whole stem. */
  lemma FieldCount(path: string)
    ensures |Fields(path)| >= 2 <==> '-' in Stem(path)
    ensures |Fields(path)| == 1 ==> Fields(path)[0] == Stem(path)
  {
    var f := Fields(path);
    if |f| >= 2 {
      assert Stem(path) == f[0] + ['-'] + JoinWith(f[1..], '-');
      assert Stem(path)[|f[0]|] == '-';
    }
  }

  /** `float` of the last field, read as the validation accuracy. The field read holds no
      `-`, and a stem without one is read whole. */
  function Accuracy(path: string): (r: Result<real, CheckpointError>)
    ensures r.Err? ==> r.error.NotANumber? && '-' !in r.error.field
    ensures '-' !in Stem(path) ==>
      (r.Ok? <==> ParseFloat(Stem(path)).Some?) && (r.Ok? ==> Some(r.value) == ParseFloat(Stem(path)))
  {
    FieldCount(path);
    var f := Fields(path);
    match ParseFloat(f[|f| - 1])
    case None => Err(NotANumber(f[|f| - 1]))
    case Some(x) => Ok(x)
  }

  /** `float` of the field before it, read as the validation loss; a stem without a `-` has
      no such field. */
  function Loss(path: string): (r: Result<real, CheckpointError>)
    ensures (r.Err? && r.error.NoLossField?) <==> '-' !in Stem(path)
    ensures r.Err? && r.error.NotANumber? ==> '-' !in r.error.field
  {
    FieldCount(path);
    var f := Fields(path);
    if |f| < 2 then Err(NoLossField(path))
    else match ParseFloat(f[|f| - 2])
      case None => Err(NotANumber(f[|f| - 2]))
      case Some(x) => Ok(x)
  }

  /** The accuracy read is the field after the last `-` of the stem. */
  lemma AccuracyReadsLastField(path: string, init: string, field: string)
    requires Stem(path) == init + "-" + field && '-' !in field
    ensures Accuracy(path) == match ParseFloat(field) case None => Err(NotANumber(field)) case Some(x) => Ok(x)
  {
    SplitOnSnoc(init, field, '-');
  }

  /** The loss read is the field before the last `-` of the stem. */
  lemma LossReadsFieldBeforeLast(path: string, init: string, loss: string, acc: string)
    requires Stem(path) == init + "-" + loss + "-" + acc && '-' !in loss && '-' !in acc
    ensures Loss(path) == match ParseFloat(loss) case None => Err(NotANumber(loss)) case Some(x) => Ok(x)
  {
    SplitOnSnoc(init, loss, '-');
    SplitOnSnoc(init + "-" + loss, acc, '-');
  }

  function Abs(x: real): real {
    if x < 0.0 then -x else x
  }

  /** `e` is the error of the first result that is one. */
  predicate FirstError(results: seq<Result<real, CheckpointError>>, e: CheckpointError) {
    exists i :: 0 <= i < |results| && results[i] == Err(e) && forall j :: 0 <= j < i ==> results[j].Ok?
  }

  /** The results of a list comprehension taken in order: every value, or the first error,
      which ends the comprehension. */
  function Collect(results: seq<Result<real, CheckpointError>>): (r: Result<seq<real>, CheckpointError>)
    ensures r.Ok? <==> forall i :: 0 <= i < |results| ==> results[i].Ok?
    ensures r.Ok? ==> |r.value| == |results| && forall i :: 0 <= i < |results| ==> results[i] == Ok(r.value[i])
    ensures r.Err? ==> FirstError(results, r.error)
  {
    if results == [] then Ok([])
    else match results[0]
      case Err(e) => Err(e)
      case Ok(x) =>
        var rest := Collect(results[1..]);
        assert forall j :: 1 <= j < |results| ==> results[1..][j - 1] == results[j];
        if rest.Err? then
          var i :| 0 <= i < |results| - 1 && results[1..][i] == Err(rest.error) &&
            forall j :: 0 <= j < i ==> results[1..][j].Ok?;
          assert results[i + 1] == Err(rest.error);
          rest
        else Ok([x] + rest.value)
  }

  /** `[float(i[-1]) for i in num]`, read path by path. */
  function AccuracyReads(paths: seq<string>): (r: seq<Result<real, CheckpointError>>)
    ensures |r| == |paths|
    ensures forall i {:trigger Accuracy(paths[i])} :: 0 <= i < |paths| ==> r[i] == Accuracy(paths[i])
  {
    seq(|paths|, i requires 0 <= i < |paths| => Accuracy(paths[i]))
  }

  /** `[float(i[-2]) for i in num]`, read path by path. */
  function LossReads(paths: seq<string>): (r: seq<Result<real, CheckpointError>>)
    ensures |r| == |paths|
    ensures forall i {:trigger Loss(paths[i])} :: 0 <= i < |paths| ==> r[i] == Loss(paths[i])
  {
    seq(|paths|, i requires 0 <= i < |paths| => Loss(paths[i]))
  }

  /** `float('-' + str(abs(x)))` of every loss: the keys the files are ranked by. */
  function Keys(losses: seq<real>): (r: seq<real>)
    ensures |r| == |losses| && forall i :: 0 <= i < |losses| ==> r[i] == -Abs(losses[i])
  {
    seq(|losses|, i requires 0 <= i < |losses| => -Abs(losses[i]))
  }

  /** `dict(zip(keys, values))`: a later pair overwrites an earlier one with an equal key. */
  function ZipDict(keys: seq<real>, values: seq<string>): (r: map<real, string>)
    requires |keys| == |values|
    ensures forall k :: k in r <==> k in keys
    ensures forall k :: k in r ==> r[k] in values
  {
    if keys == [] then map[]
    else ZipDict(keys[..|keys| - 1], values[..|keys| - 1])[keys[|keys| - 1] := values[|keys| - 1]]
  }

  /** The dictionary maps a key to the value paired with its last occurrence. */
  lemma {:induction false} ZipDictLast(keys: seq<real>, values: seq<string>, j: nat)
    requires |keys| == |values| && j < |keys|
    requires forall i :: j < i < |keys| ==> keys[i] != keys[j]
    ensures ZipDict(keys, values)[keys[j]] == values[j]
  {
    var n := |keys|;
    var front := ZipDict(keys[..n - 1], values[..n - 1]);
    assert ZipDict(keys, values) == front[keys[n - 1] := values[n - 1]];
    if j < n - 1 {
      assert keys[..n - 1][j] == keys[j] && keys[j] != keys[n - 1];
      ZipDictLast(keys[..n - 1], values[..n - 1], j);
    }
  }

  /** `max(keys)`. */
  function MaxOf(keys: seq<real>): (r: real)
    requires |keys| > 0
    ensures r in keys && forall i :: 0 <= i < |keys| ==> keys[i] <= r
  {
    if |keys| == 1 then keys[0]
    else
      var m := MaxOf(keys[..|keys| - 1]);
      assert forall i :: 0 <= i < |keys| - 1 ==> keys[..|keys| - 1][i] == keys[i];
      if keys[|keys| - 1] > m then keys[|keys| - 1] else m
  }

  /** `extraction_image(checkpoint_path)` on a directory of plain files: each listed name
      joined to the directory. */
  function ListingPaths(dir: string, listing: seq<string>): (r: seq<string>)
    ensures |r| == |listing| && forall i :: 0 <= i < |listing| ==> r[i] == PathJoin(dir, listing[i])
  {
    seq(|listing|, i requires 0 <= i < |listing| => PathJoin(dir, listing[i]))
  }

  /** The choice once the names are read: the first accuracy error, else the first loss
      error, else the path whose key `-|loss|` is largest, the last such path when several
      tie (`dict(zip(index, value)).get(max(index))`). */
  function Choose(paths: seq<string>, accs: seq<Result<real, CheckpointError>>,
                  losses: seq<Result<real, CheckpointError>>): (r: Result<Option<string>, CheckpointError>)
    requires |accs| == |paths| && |losses| == |paths| && paths != []
    ensures r.Ok? ==> r.value.Some? && r.value.value in paths
    ensures r.Err? ==> exists i :: 0 <= i < |paths| && (accs[i] == Err(r.error) || losses[i] == Err(r.error))
  {
    match Collect(accs)
    case Err(e) => Err(e)
    case Ok(_) =>
      match Collect(losses)
      case Err(e) => Err(e)
      case Ok(values) =>
        var index := Keys(values);
        Ok(Some(ZipDict(index, paths)[MaxOf(index)]))
  }

  /** Every loss reads, none is smaller in magnitude than the `j`th, and the ones after
      the `j`th are strictly larger. */
  predicate Least(losses: seq<Result<real, CheckpointError>>, j: nat) {
    j < |losses| &&
    (forall i :: 0 <= i < |losses| ==> losses[i].Ok?) &&
    (forall i :: 0 <= i < |losses| ==> Abs(losses[j].value) <= Abs(losses[i].value)) &&
    (forall i :: j < i < |losses| ==> Abs(losses[j].value) < Abs(losses[i].value))
  }

  lemma ChooseLeast(paths: seq<string>, accs: seq<Result<real, CheckpointError>>,
                    losses: seq<Result<real, CheckpointError>>)
    requires |accs| == |paths| && |losses| == |paths| && paths != []
    requires Choose(paths, accs, losses).Ok?
    ensures exists j :: (0 <= j < |paths| && Choose(paths, accs, losses) == Ok(Some(paths[j])) &&
      Least(losses, j))
  {
    var values := Collect(losses).value;
    var index := Keys(values);
    var j := LastAt(index, MaxOf(index));
    ZipDictLast(index, paths, j);
    LeastAtLastMax(losses, values, j);
  }

  /** The last position of the largest key `-|loss|` holds a least loss. */
  lemma LeastAtLastMax(losses: seq<Result<real, CheckpointError>>, values: seq<real>, j: nat)
    requires Collect(losses) == Ok(values) && values != []
    requires j < |values| && Keys(values)[j] == MaxOf(Keys(values))
    requires forall i :: j < i < |values| ==> Keys(values)[i] != Keys(values)[j]
    ensures Least(losses, j)
  {
    var index := Keys(values);
    assert forall i :: 0 <= i < |values| ==> index[i] <= index[j];
  }

  /** The choice fails exactly when some accuracy or loss does not read; the error is the
      first unreadable accuracy's, or when every accuracy reads the first unreadable loss's. */
  lemma ChooseFails(paths: seq<string>, accs: seq<Result<real, CheckpointError>>,
                    losses: seq<Result<real, CheckpointError>>)
    requires |accs| == |paths| && |losses| == |paths| && paths != []
    ensures Choose(paths, accs, losses).Err? <==>
      exists i :: 0 <= i < |paths| && (accs[i].Err? || losses[i].Err?)
    ensures Choose(paths, accs, losses).Err? ==>
      FirstError(accs, Choose(paths, accs, losses).error) ||
      ((forall j :: 0 <= j < |accs| ==> accs[j].Ok?) && FirstError(losses, Choose(paths, accs, losses).error))
  {
  }

  /** `calculate_the_best_weight()` for the directory `dir` whose `os.listdir` is `listing`:
      `None` for an empty directory; otherwise every accuracy field is read, then every loss
      field, and a path is chosen by its loss alone. */
  function BestWeight(dir: string, listing: seq<string>): (r: Result<Option<string>, CheckpointError>)
    ensures r == Ok(None) <==> listing == []
  {
    if listing == [] then Ok(None)
    else
      var paths := ListingPaths(dir, listing);
      Choose(paths, AccuracyReads(paths), LossReads(paths))
  }

  /** The returned file has the smallest absolute loss, and every file listed after it has
      a strictly larger one. */
  lemma BestWeightSmallestLoss(dir: string, listing: seq<string>)
    requires BestWeight(dir, listing).Ok? && listing != []
    ensures var paths := ListingPaths(dir, listing);
      exists j :: (0 <= j < |listing| && BestWeight(dir, listing) == Ok(Some(paths[j])) &&
        Least(LossReads(paths), j))
  {
    var paths := ListingPaths(dir, listing);
    ChooseLeast(paths, AccuracyReads(paths), LossReads(paths));
  }

  /** The last position holding `x`. */
  function LastAt(s: seq<real>, x: real): (j: nat)
    requires x in s
    ensures j < |s| && s[j] == x && forall i :: j < i < |s| ==> s[i] != x
  {
    if s[|s| - 1] == x then |s| - 1
    else
      assert x in s[..|s| - 1] by {
        var k :| 0 <= k < |s| && s[k] == x;
        assert s[..|s| - 1][k] == x;
      }
      var j := LastAt(s[..|s| - 1], x);
      assert s[j] == s[..|s| - 1][j];
      j
  }

  /** The selection fails exactly when some name lacks a readable accuracy or loss, and
      it reports the first unreadable accuracy before looking at any loss. */
  lemma BestWeightFails(dir: string, listing: seq<string>)
    ensures var paths := ListingPaths(dir, listing);
      var accs, losses := AccuracyReads(paths), LossReads(paths);
      BestWeight(dir, listing).Err? <==>
        exists i :: 0 <= i < |paths| && (accs[i].Err? || losses[i].Err?)
    ensures var paths := ListingPaths(dir, listing); var r := BestWeight(dir, listing);
      var accs, losses := AccuracyReads(paths), LossReads(paths);
      r.Err? ==> (FirstError(accs, r.error) ||
        ((forall j :: 0 <= j < |paths| ==> accs[j].Ok?) && FirstError(losses, r.error)))
  {
    var paths := ListingPaths(dir, listing);
    if listing != [] {
      ChooseFails(paths, AccuracyReads(paths), LossReads(paths));
    }
  }

  // ---------------------------------------------------------------- written names

  /** The epoch and the metrics `ModelCheckpoint` formats into a file name, the metrics as
      much of them as `:.4f` keeps. */
  datatype Written = Written(epoch: nat, loss: Fixed, acc: Fixed)

  predicate ValidWritten(w: Written) {
    ValidFixed(w.loss) && ValidFixed(w.acc)
  }

  const Prefix: string := "Model_weights."

  /** `'Model_weights.-{epoch:02d}-{val_loss:.4f}-{val_acc:.4f}.hdf5'` (the CTC variant
      names `val_word_acc` the same way). */
  function CheckpointName(w: Written): string {
    Prefix + "-" + ZeroPad(Decimal(w.epoch), 2) + "-" + Fixed4(w.loss) + "-" + Fixed4(w.acc) + ".hdf5"
  }

  lemma EpochDigits(epoch: nat)
    ensures AllDigits(ZeroPad(Decimal(epoch), 2))
    ensures '-' !in ZeroPad(Decimal(epoch), 2) && '/' !in ZeroPad(Decimal(epoch), 2)
  {
    DecimalValue(epoch);
    ZeroPadValue(Decimal(epoch), 2);
    var e := ZeroPad(Decimal(epoch), 2);
    assert forall i :: 0 <= i < |e| ==> e[i] != '-' && e[i] != '/';
  }

  /** A character in none of the fields, other than the separator, is not in their join. */
  lemma {:induction false} JoinAvoids(fields: seq<string>, sep: char, c: char)
    requires |fields| >= 1 && c != sep && forall k :: 0 <= k < |fields| ==> c !in fields[k]
    ensures c !in JoinWith(fields, sep)
    decreases |fields|
  {
    if |fields| > 1 {
      JoinAvoids(fields[1..], sep, c);
    }
  }

  /** A plain file name made of `-`-joined fields and an extension splits back into the
      fields, wherever it lies. */
  lemma FieldsOfName(dir: string, fields: seq<string>, ext: string)
    requires |fields| >= 1 && forall k :: 0 <= k < |fields| ==> '-' !in fields[k] && '/' !in fields[k]
    requires fields[0] != [] && fields[0][0] != '.'
    requires |ext| >= 1 && ext[0] == '.' && '.' !in ext[1..] && '/' !in ext
    ensures Fields(PathJoin(dir, JoinWith(fields, '-') + ext)) == fields
  {
    var stem := JoinWith(fields, '-');
    JoinAvoids(fields, '-', '/');
    assert stem[0] == fields[0][0];
    BasenameOfJoin(dir, stem + ext);
    SplitExtOfAppend(stem, ext);
    SplitOnJoin(fields, '-');
  }

  lemma PrefixChars()
    ensures '-' !in Prefix && '/' !in Prefix && Prefix[0] != '.'
  {
  }

  /** A written name splits back into its four fields. */
  lemma WrittenFields(dir: string, w: Written)
    requires ValidWritten(w)
    ensures Fields(PathJoin(dir, CheckpointName(w))) ==
      [Prefix, ZeroPad(Decimal(w.epoch), 2), Fixed4(w.loss), Fixed4(w.acc)]
  {
    var e, l, a := ZeroPad(Decimal(w.epoch), 2), Fixed4(w.loss), Fixed4(w.acc);
    var fields := [Prefix, e, l, a];
    EpochDigits(w.epoch);
    Fixed4Chars(w.loss);
    Fixed4Chars(w.acc);
    PrefixChars();
    JoinFour(Prefix, e, l, a);
    FieldsOfName(dir, fields, ".hdf5");
  }

  lemma JoinFour(p: string, e: string, l: string, a: string)
    ensures JoinWith([p, e, l, a], '-') == p + "-" + e + "-" + l + "-" + a
  {
    var fields := [p, e, l, a];
    assert JoinWith(fields[3..], '-') == a;
    assert JoinWith(fields[2..], '-') == l + "-" + a;
    assert JoinWith(fields[1..], '-') == e + "-" + (l + "-" + a);
  }

  /** The metrics read back from a written name are the ones written. */
  lemma WrittenMetrics(dir: string, w: Written)
    requires ValidWritten(w)
    ensures Accuracy(PathJoin(dir, CheckpointName(w))) == Ok(FixedValue(w.acc))
    ensures Loss(PathJoin(dir, CheckpointName(w))) == Ok(FixedValue(w.loss))
  {
    WrittenFields(dir, w);
    ParseFixed4(w.acc);
    ParseFixed4(w.loss);
  }

  function Names(ws: seq<Written>): (r: seq<string>)
    ensures |r| == |ws| && forall i :: 0 <= i < |ws| ==> r[i] == CheckpointName(ws[i])
  {
    seq(|ws|, i requires 0 <= i < |ws| => CheckpointName(ws[i]))
  }

  /** What is read back from a listing of written names. */
  lemma WrittenReads(dir: string, ws: seq<Written>)
    requires forall i :: 0 <= i < |ws| ==> ValidWritten(ws[i])
    ensures var paths := ListingPaths(dir, Names(ws));
      (forall i :: 0 <= i < |ws| ==> AccuracyReads(paths)[i].Ok?) &&
      (forall i :: 0 <= i < |ws| ==> LossReads(paths)[i] == Ok(FixedValue(ws[i].loss)))
  {
    var paths := ListingPaths(dir, Names(ws));
    forall i | 0 <= i < |ws|
      ensures AccuracyReads(paths)[i].Ok? && LossReads(paths)[i] == Ok(FixedValue(ws[i].loss))
    {
      WrittenMetrics(dir, ws[i]);
    }
  }

  /** `ws[j]` has the least loss, and every later one a strictly larger loss. */
  predicate LeastWritten(ws: seq<Written>, j: nat) {
    j < |ws| &&
    (forall i :: 0 <= i < |ws| ==> FixedValue(ws[j].loss) <= FixedValue(ws[i].loss)) &&
    (forall i :: j < i < |ws| ==> FixedValue(ws[j].loss) < FixedValue(ws[i].loss))
  }

  /** On a directory holding only files `ModelCheckpoint` wrote, the selection succeeds and
      returns a file of least validation loss, the last of them in listing order; the
      accuracies written play no part. */
  lemma BestWrittenWeight(dir: string, ws: seq<Written>)
    requires ws != [] && forall i :: 0 <= i < |ws| ==> ValidWritten(ws[i])
    ensures exists j :: (0 <= j < |ws| && LeastWritten(ws, j) &&
      BestWeight(dir, Names(ws)) == Ok(Some(PathJoin(dir, CheckpointName(ws[j])))))
  {
    var paths := ListingPaths(dir, Names(ws));
    WrittenReads(dir, ws);
    var j := WrittenChoice(paths, AccuracyReads(paths), LossReads(paths), ws);
    assert paths[j] == PathJoin(dir, CheckpointName(ws[j]));
  }

  /** Over reads that succeed with the written losses, the choice is a least one. */
  lemma WrittenChoice(paths: seq<string>, accs: seq<Result<real, CheckpointError>>,
                      losses: seq<Result<real, CheckpointError>>, ws: seq<Written>) returns (j: nat)
    requires |accs| == |paths| && |losses| == |paths| && |ws| == |paths| && paths != []
    requires forall i :: 0 <= i < |ws| ==> accs[i].Ok?
    requires forall i :: 0 <= i < |ws| ==> losses[i] == Ok(FixedValue(ws[i].loss))
    ensures j < |paths| && Choose(paths, accs, losses) == Ok(Some(paths[j])) && LeastWritten(ws, j)
  {
    ChooseFails(paths, accs, losses);
    ChooseLeast(paths, accs, losses);
    j :| 0 <= j < |paths| && Choose(paths, accs, losses) == Ok(Some(paths[j])) && Least(losses, j);
    LeastFromReads(ws, losses, j);
  }

  /** Losses read back as the written ones rank the written names the same way. */
  lemma LeastFromReads(ws: seq<Written>, losses: seq<Result<real, CheckpointError>>, j: nat)
    requires |losses| == |ws| && Least(losses, j)
    requires forall i :: 0 <= i < |ws| ==> losses[i] == Ok(FixedValue(ws[i].loss))
    ensures LeastWritten(ws, j)
  {
    forall i | 0 <= i < |ws|
      ensures FixedValue(ws[j].loss) <= FixedValue(ws[i].loss)
      ensures j < i ==> FixedValue(ws[j].loss) < FixedValue(ws[i].loss)
    {
      assert Abs(losses[i].value) == FixedValue(ws[i].loss);
      assert Abs(losses[j].value) == FixedValue(ws[j].loss);
    }
  }
}
