/** Labels from file names, the class vocabulary kept in `num_classes.json`, and the three
    label encodings (`Image_Processing.extraction_label`, `Image_Processing.text2vector`),
    together with the label shape the record reader expects (`parse_function`) and the
    output width the models are built with (`Settings.settings`). */
module LabelCodec {
  import opened Wrappers
  import opened PyStr
  import opened Settings

  // ================================================================ vocabulary

  predicate Distinct(s: seq<string>) {
    forall i, j :: 0 <= i < j < |s| ==> s[i] != s[j]
  }

  /** The content of the vocabulary file: entry `i` is the symbol of class `i`. The file is
      only ever written from `sorted(set(...))`, so its symbols are distinct, and the
      reloaded `{symbol: index}` dictionary has exactly one entry per class. */
  type Vocab = s: seq<string> | Distinct(s) witness []

  predicate StrictlySorted(s: seq<string>) {
    forall i, j :: 0 <= i < j < |s| ==> LexLess(s[i], s[j])
  }

  lemma StrictlySortedIsDistinct(s: seq<string>)
    requires StrictlySorted(s)
    ensures Distinct(s)
  {
    forall i, j | 0 <= i < j < |s| ensures s[i] != s[j] {
      if s[i] == s[j] {
        LexLessIrreflexive(s[i]);
      }
    }
  }

  /** Inserts `x` into a strictly sorted list unless it is already there. */
  function Insert(x: string, s: seq<string>): (r: seq<string>)
    requires StrictlySorted(s)
    ensures StrictlySorted(r)
    ensures forall y :: y in r <==> y == x || y in s
  {
    if s == [] then [x]
    else if x == s[0] then s
    else if LexLess(x, s[0]) then
      assert forall j :: 0 < j < |s| ==> LexLess(x, s[j]) by {
        forall j | 0 < j < |s| ensures LexLess(x, s[j]) {
          LexLessTransitive(x, s[0], s[j]);
        }
      }
      [x] + s
    else
      LexLessTotal(x, s[0]);
      var rest := Insert(x, s[1..]);
      assert forall y :: y in s[1..] ==> LexLess(s[0], y);
      [s[0]] + rest
  }

  /** `sorted(set(xs))`, by insertion. */
  function SortedSet(xs: seq<string>): (r: seq<string>)
    ensures StrictlySorted(r)
    ensures forall y :: y in r <==> y in xs
  {
    if xs == [] then []
    else
      var r := Insert(xs[|xs| - 1], SortedSet(xs[..|xs| - 1]));
      assert xs == xs[..|xs| - 1] + [xs[|xs| - 1]];
      r
  }

  lemma HeadIn(b: seq<string>)
    ensures b != [] ==> b[0] in b
  {
  }

  /** A strictly sorted list is determined by its elements: `SortedSet` is the only list
      that is strictly increasing and holds exactly the given symbols. */
  lemma {:induction false} SortedUnique(a: seq<string>, b: seq<string>)
    requires StrictlySorted(a) && StrictlySorted(b)
    requires forall y :: y in a <==> y in b
    ensures a == b
    decreases |a|
  {
    if a == [] {
      HeadIn(b);
    } else {
      assert b != [] by { assert a[0] in a; }
      assert a[0] in b && b[0] in a by { assert a[0] in a && b[0] in b; }
      HeadIsMinimum(b, a[0]);
      HeadIsMinimum(a, b[0]);
      LexLessAsymmetric(a[0], b[0]);
      assert a[0] == b[0];
      StrictlySortedIsDistinct(a);
      StrictlySortedIsDistinct(b);
      assert a == [a[0]] + a[1..] && b == [b[0]] + b[1..];
      assert forall k :: 0 <= k < |a| - 1 ==> a[1..][k] != a[0];
      assert forall k :: 0 <= k < |b| - 1 ==> b[1..][k] != b[0];
      forall y ensures y in a[1..] <==> y in b[1..] {
        assert y in a <==> y == a[0] || y in a[1..];
        assert y in b <==> y == b[0] || y in b[1..];
      }
      SortedUnique(a[1..], b[1..]);
    }
  }

  /** The first entry of a strictly sorted list is its least. */
  lemma HeadIsMinimum(s: seq<string>, y: string)
    requires StrictlySorted(s) && y in s
    ensures y == s[0] || LexLess(s[0], y)
  {
    var k :| 0 <= k < |s| && s[k] == y;
  }

  /** Every character of every label, as one-character strings, in order. */
  function CharSymbols(labels: seq<string>): (r: seq<string>)
    ensures forall y :: y in r <==> exists k, i :: 0 <= k < |labels| && 0 <= i < |labels[k]| && y == [labels[k][i]]
  {
    if labels == [] then []
    else
      var r := CharSymbols(labels[..|labels| - 1]) + CharsOf(labels[|labels| - 1]);
      assert forall k :: 0 <= k < |labels| - 1 ==> labels[..|labels| - 1][k] == labels[k];
      r
  }

  function CharsOf(text: string): (r: seq<string>)
    ensures |r| == |text| && forall i :: 0 <= i < |text| ==> r[i] == [text[i]]
  {
    seq(|text|, i requires 0 <= i < |text| => [text[i]])
  }

  /** The symbols a mode builds its vocabulary from: whole labels in NUM_CLASSES mode,
      single characters otherwise. */
  function Symbols(labels: seq<string>, mode: Mode): seq<string> {
    if mode == NumClasses then labels else CharSymbols(labels)
  }

  /** `sorted(set(symbols))`, the list whose `enumerate` is dumped to the vocabulary file. */
  function Vocabulary(labels: seq<string>, mode: Mode): (r: Vocab)
    ensures StrictlySorted(r)
    ensures forall y :: y in r <==> y in Symbols(labels, mode)
  {
    var r := SortedSet(Symbols(labels, mode));
    StrictlySortedIsDistinct(r);
    r
  }

  /** The vocabulary numbers its classes 0..N-1 in strictly increasing symbol order, holds
      exactly the observed symbols, and depends only on which symbols were observed (so
      shuffling or regrouping the files does not change it). */
  lemma VocabularySortedDistinct(labels: seq<string>, mode: Mode, others: seq<string>)
    requires forall y :: y in others <==> y in Symbols(labels, mode)
    ensures StrictlySorted(Vocabulary(labels, mode))
    ensures forall y :: y in Vocabulary(labels, mode) <==> y in Symbols(labels, mode)
    ensures Vocabulary(labels, mode) == SortedSet(others)
  {
    SortedUnique(Vocabulary(labels, mode), SortedSet(others));
  }

  /** `make_dict.get(symbol)` on the reloaded, inverted file: the class index of a symbol. */
  function IndexOf(vocab: Vocab, sym: string): (r: Option<nat>)
    ensures r.None? <==> sym !in vocab
    ensures r.Some? ==> r.value < |vocab| && vocab[r.value] == sym
    ensures forall k :: 0 <= k < |vocab| && vocab[k] == sym ==> r == Some(k)
  {
    if vocab == [] then None
    else if vocab[0] == sym then Some(0)
    else
      var rest: Vocab := vocab[1..];
      match IndexOf(rest, sym)
      case None => None
      case Some(k) => Some(k + 1)
  }

  // ================================================================ labels

  /** The label of an image file: its name without directory and extension and, with
      `suffix`, only the text before the first `_`. */
  function LabelOf(path: string, suffix: bool): (r: string)
    ensures !suffix ==> r == Stem(path)
    ensures suffix ==> '_' !in r && r <= Stem(path)
    ensures suffix && |r| < |Stem(path)| ==> Stem(path)[|r|] == '_'
  {
    if suffix then BeforeFirst(Stem(path), '_') else Stem(path)
  }

  function LabelsOf(paths: seq<string>, suffix: bool): (r: seq<string>)
    ensures |r| == |paths| && forall i :: 0 <= i < |paths| ==> r[i] == LabelOf(paths[i], suffix)
  {
    seq(|paths|, i requires 0 <= i < |paths| => LabelOf(paths[i], suffix))
  }

  // ================================================================ encodings

  /** The exceptions of the label code: the ORDINARY length check (it suggests
      `len(label) + 2`), a character missing from the vocabulary, a whole label missing from
      it (`int(None)` raises), a `MODE` no branch handles, and an absent vocabulary file. */
  datatype LabelError =
    | LabelTooLong(text: string, suggestedLength: nat)
    | UnknownSymbol(symbol: string)
    | MissingClass(text: string)
    | UnsupportedMode(name: string)
    | VocabularyMissing

  /** `to_categorical([k], width)`: a row of `width` zeros with a one at `k` (all zeros
      when `k` is out of range). */
  function OneHot(k: nat, width: nat): (r: seq<int>)
    ensures |r| == width
    ensures forall j :: 0 <= j < width ==> r[j] == (if j == k then 1 else 0)
  {
    seq(width, j requires 0 <= j < width => if j == k then 1 else 0)
  }

  /** `to_categorical(indices, width).ravel()`: the one-hot rows laid end to end. */
  function OneHotBlocks(indices: seq<nat>, width: nat): (r: seq<int>)
    ensures |r| == |indices| * width
  {
    if indices == [] then [] else OneHot(indices[0], width) + OneHotBlocks(indices[1..], width)
  }

  /** The flat vector cut back into `count` rows of `width` (what the reader's `reshape`
      does). */
  function Rows(v: seq<int>, width: nat, count: nat): (r: seq<seq<int>>)
    requires |v| == count * width
    ensures |r| == count && forall i :: 0 <= i < count ==> |r[i]| == width
  {
    if count == 0 then []
    else
      assert |v[width..]| == (count - 1) * width;
      [v[..width]] + Rows(v[width..], width, count - 1)
  }

  /** Row `i` of `to_categorical(indices, width)` is the one-hot row of `indices[i]`. */
  lemma {:induction false} OneHotBlocksRows(indices: seq<nat>, width: nat)
    ensures forall i :: 0 <= i < |indices| ==> Rows(OneHotBlocks(indices, width), width, |indices|)[i] == OneHot(indices[i], width)
  {
    if indices != [] {
      OneHotBlocksRows(indices[1..], width);
      var all := OneHotBlocks(indices, width);
      assert all[..width] == OneHot(indices[0], width);
      assert all[width..] == OneHotBlocks(indices[1..], width);
    }
  }

  /** The class index of every character of `label`, or the first character (as a
      one-character string) that the vocabulary lacks. */
  function CharIndices(text: string, vocab: Vocab): (r: Result<seq<nat>, LabelError>)
    ensures r.Ok? <==> forall i :: 0 <= i < |text| ==> [text[i]] in vocab
    ensures r.Ok? ==> (|r.value| == |text| &&
      forall i :: 0 <= i < |text| ==> r.value[i] < |vocab| && vocab[r.value[i]] == [text[i]])
    ensures r.Err? ==> exists i :: (0 <= i < |text| && r.error == UnknownSymbol([text[i]]) &&
      [text[i]] !in vocab && forall j :: 0 <= j < i ==> [text[j]] in vocab)
  {
    if text == [] then Ok([])
    else
      TailShift(text);
      match IndexOf(vocab, [text[0]])
      case None => Err(UnknownSymbol([text[0]]))
      case Some(k) =>
        match CharIndices(text[1..], vocab)
        case Err(e) => Err(e)
        case Ok(rest) => Ok([k] + rest)
  }

  lemma TailShift(text: string)
    requires text != []
    ensures forall j :: 1 <= j < |text| ==> text[1..][j - 1] == text[j]
  {
  }

  /** The ORDINARY index buffer: the label's indices, then `N` (the "no character" class)
      up to `CAPTCHA_LENGTH` positions. */
  function Padded(indices: seq<nat>, length: nat, fill: nat): (r: seq<nat>)
    requires |indices| <= length
    ensures |r| == length
    ensures forall i :: 0 <= i < length ==> r[i] == if i < |indices| then indices[i] else fill
  {
    indices + seq(length - |indices|, _ => fill)
  }

  /** `text2vector(label, make_dict, mode)`: the label vector a record stores, or the
      exception the source raises. */
  function Encode(text: string, vocab: Vocab, mode: Mode, captchaLength: nat): (r: Result<seq<int>, LabelError>)
    ensures mode.Unsupported? ==> r == Err(UnsupportedMode(mode.name))
    ensures (r.Err? && r.error.LabelTooLong?) <==> (mode == Ordinary && |text| > captchaLength)
    ensures r.Ok? && mode == Ordinary ==> |r.value| == captchaLength * (|vocab| + 1)
    ensures r.Ok? && mode == NumClasses ==> |r.value| == |vocab|
    ensures r.Ok? && mode == Ctc ==> |r.value| == |text|
  {
    match mode
    case Ordinary =>
      if |text| > captchaLength then Err(LabelTooLong(text, |text| + 2))
      else (
        match CharIndices(text, vocab)
        case Err(e) => Err(e)
        case Ok(indices) => Ok(OneHotBlocks(Padded(indices, captchaLength, |vocab|), |vocab| + 1)))
    case NumClasses => (
      match IndexOf(vocab, text)
      case None => Err(MissingClass(text))
      case Some(k) => Ok(OneHot(k, |vocab|)))
    case Ctc => (
      match CharIndices(text, vocab)
      case Err(e) => Err(e)
      case Ok(indices) => Ok(indices))
    case Unsupported(name) => Err(UnsupportedMode(name))
  }

  /** The first character missing from the vocabulary is the one reported. */
  lemma {:induction false} FirstMissingSymbol(text: string, vocab: Vocab, index: nat)
    requires index < |text| && [text[index]] !in vocab
    requires forall i :: 0 <= i < index ==> [text[i]] in vocab
    ensures CharIndices(text, vocab) == Err(UnknownSymbol([text[index]]))
  {
    if index > 0 {
      FirstMissingSymbol(text[1..], vocab, index - 1);
    }
  }

  /** The ORDINARY branch of `text2vector`: the buffer starts as N everywhere and a `for`
      loop writes the class index of each character over it. */
  method OrdinaryVector(text: string, vocab: Vocab, captchaLength: nat) returns (r: Result<seq<int>, LabelError>)
    ensures r == Encode(text, vocab, Ordinary, captchaLength)
  {
    if |text| > captchaLength {
      return Err(LabelTooLong(text, |text| + 2));
    }
    var numClasses := |vocab|;
    var labelVer := new nat[captchaLength](_ => numClasses);
    for index := 0 to |text|
      invariant forall i :: 0 <= i < index ==> [text[i]] in vocab && labelVer[i] < |vocab| && vocab[labelVer[i]] == [text[i]]
      invariant forall i :: index <= i < captchaLength ==> labelVer[i] == numClasses
    {
      var k := IndexOf(vocab, [text[index]]);
      if k.None? {
        FirstMissingSymbol(text, vocab, index);
        return Err(UnknownSymbol([text[index]]));
      }
      labelVer[index] := k.value;
    }
    var indices := CharIndices(text, vocab).value;
    forall i | 0 <= i < |text| ensures labelVer[i] == indices[i] {
      assert vocab[labelVer[i]] == vocab[indices[i]];
    }
    assert labelVer[..] == Padded(indices, captchaLength, numClasses);
    r := Ok(OneHotBlocks(labelVer[..], numClasses + 1));
  }

  /** The CTC branch of `text2vector`: the class indices appended one by one. */
  method CtcVector(text: string, vocab: Vocab) returns (r: Result<seq<int>, LabelError>)
    ensures r == Encode(text, vocab, Ctc, 0)
  {
    var labelVer: seq<nat> := [];
    for index := 0 to |text|
      invariant |labelVer| == index
      invariant forall i :: 0 <= i < index ==> [text[i]] in vocab && labelVer[i] < |vocab| && vocab[labelVer[i]] == [text[i]]
    {
      var k := IndexOf(vocab, [text[index]]);
      if k.None? {
        FirstMissingSymbol(text, vocab, index);
        return Err(UnknownSymbol([text[index]]));
      }
      labelVer := labelVer + [k.value];
    }
    var indices := CharIndices(text, vocab).value;
    forall i | 0 <= i < |text| ensures labelVer[i] == indices[i] {
      assert vocab[labelVer[i]] == vocab[indices[i]];
    }
    assert labelVer == indices;
    r := Ok(labelVer);
  }

  /** `text2vector(label, make_dict, mode)` as the source runs it, dispatching on `MODE`. */
  method Text2Vector(text: string, vocab: Vocab, mode: Mode, captchaLength: nat)
    returns (r: Result<seq<int>, LabelError>)
    ensures r == Encode(text, vocab, mode, captchaLength)
  {
    match mode {
      case Ordinary =>
        r := OrdinaryVector(text, vocab, captchaLength);
      case NumClasses =>
        var k := IndexOf(vocab, text);
        if k.None? {
          return Err(MissingClass(text));
        }
        r := Ok(OneHot(k.value, |vocab|));
      case Ctc =>
        r := CtcVector(text, vocab);
      case Unsupported(name) =>
        r := Err(UnsupportedMode(name));
    }
  }

  // ---------------------------------------------------------------- encoding properties

  /** ORDINARY mode: a label longer than `CAPTCHA_LENGTH` always fails with the length
      error (suggesting `len(label) + 2`); a label within the length fails only for a
      character the vocabulary lacks, so one of exactly `CAPTCHA_LENGTH` characters succeeds
      whenever its characters are known. */
  lemma OrdinaryEncodingErrors(text: string, vocab: Vocab, captchaLength: nat)
    ensures |text| > captchaLength ==>
      Encode(text, vocab, Ordinary, captchaLength) == Err(LabelTooLong(text, |text| + 2))
    ensures |text| <= captchaLength ==>
      (Encode(text, vocab, Ordinary, captchaLength).Ok? <==> forall i :: 0 <= i < |text| ==> [text[i]] in vocab)
    ensures |text| <= captchaLength && Encode(text, vocab, Ordinary, captchaLength).Err? ==>
      Encode(text, vocab, Ordinary, captchaLength).error.UnknownSymbol?
  {
  }

  /** The class marked by block `i` of an ORDINARY vector. */
  function Slot(text: string, vocab: Vocab, i: nat): nat
    requires forall k :: 0 <= k < |text| ==> [text[k]] in vocab
  {
    if i < |text| then IndexOf(vocab, [text[i]]).value else |vocab|
  }

  /** The ORDINARY index buffer holds the class of block `i` at position `i`. */
  lemma PaddedSlots(text: string, vocab: Vocab, captchaLength: nat)
    requires |text| <= captchaLength && CharIndices(text, vocab).Ok?
    ensures forall k :: 0 <= k < |text| ==> [text[k]] in vocab
    ensures forall i :: 0 <= i < captchaLength ==>
      Padded(CharIndices(text, vocab).value, captchaLength, |vocab|)[i] == Slot(text, vocab, i)
  {
    var indices := CharIndices(text, vocab).value;
    forall i | 0 <= i < captchaLength
      ensures Padded(indices, captchaLength, |vocab|)[i] == Slot(text, vocab, i)
    {
      if i < |text| {
        assert vocab[indices[i]] == [text[i]];
      }
    }
  }

  /** ORDINARY mode: the vector is `CAPTCHA_LENGTH` one-hot rows of width N+1; row `i`
      marks the class of `label[i]`, and every row past the label marks N. */
  lemma OrdinaryEncodingBlocks(text: string, vocab: Vocab, captchaLength: nat)
    requires Encode(text, vocab, Ordinary, captchaLength).Ok?
    ensures forall k :: 0 <= k < |text| ==> [text[k]] in vocab
    ensures |Encode(text, vocab, Ordinary, captchaLength).value| == captchaLength * (|vocab| + 1)
    ensures forall i :: 0 <= i < captchaLength ==>
      Rows(Encode(text, vocab, Ordinary, captchaLength).value, |vocab| + 1, captchaLength)[i] == OneHot(Slot(text, vocab, i), |vocab| + 1)
  {
    var n := |vocab|;
    assert |text| <= captchaLength && CharIndices(text, vocab).Ok?;
    var slots := Padded(CharIndices(text, vocab).value, captchaLength, n);
    PaddedSlots(text, vocab, captchaLength);
    assert Encode(text, vocab, Ordinary, captchaLength).value == OneHotBlocks(slots, n + 1);
    OneHotBlocksRows(slots, n + 1);
  }

  /** Block `i` of an ORDINARY vector marks exactly the class whose symbol is `label[i]`. */
  lemma SlotMarksSymbol(text: string, vocab: Vocab, i: nat, j: nat)
    requires forall k :: 0 <= k < |text| ==> [text[k]] in vocab
    requires i < |text| && j < |vocab|
    ensures j == Slot(text, vocab, i) <==> vocab[j] == [text[i]]
  {
  }

  /** NUM_CLASSES mode: the vector is one-hot over the N classes, marking the label's class;
      a label missing from the vocabulary raises. */
  lemma NumClassesEncoding(text: string, vocab: Vocab)
    ensures Encode(text, vocab, NumClasses, 0).Ok? <==> text in vocab
    ensures Encode(text, vocab, NumClasses, 0).Err? ==>
      Encode(text, vocab, NumClasses, 0).error == MissingClass(text)
    ensures Encode(text, vocab, NumClasses, 0).Ok? ==>
      var v := Encode(text, vocab, NumClasses, 0).value;
      |v| == |vocab| && forall j :: 0 <= j < |vocab| ==> (v[j] == 1 <==> vocab[j] == text) && 0 <= v[j] <= 1
  {
  }

  /** CTC mode: the vector is the list of class indices, one per character, as long as the
      label; a character missing from the vocabulary raises. */
  lemma CtcEncoding(text: string, vocab: Vocab, captchaLength: nat)
    ensures Encode(text, vocab, Ctc, captchaLength).Ok? <==> forall i :: 0 <= i < |text| ==> [text[i]] in vocab
    ensures Encode(text, vocab, Ctc, captchaLength).Err? ==> Encode(text, vocab, Ctc, captchaLength).error.UnknownSymbol?
    ensures Encode(text, vocab, Ctc, captchaLength).Ok? ==>
      var v := Encode(text, vocab, Ctc, captchaLength).value;
      |v| == |text| && forall i :: 0 <= i < |text| ==> 0 <= v[i] < |vocab| && vocab[v[i]] == [text[i]]
  {
  }

  // ================================================================ extraction_label

  /** Every label in order, or the first exception. */
  function EncodeAll(labels: seq<string>, vocab: Vocab, mode: Mode, captchaLength: nat): (r: Result<seq<seq<int>>, LabelError>)
    ensures r.Ok? ==> (|r.value| == |labels| &&
      forall k :: 0 <= k < |labels| ==> Encode(labels[k], vocab, mode, captchaLength) == Ok(r.value[k]))
    ensures r.Err? ==> exists k :: 0 <= k < |labels| && Encode(labels[k], vocab, mode, captchaLength) == Err(r.error)
  {
    if labels == [] then Ok([])
    else match Encode(labels[0], vocab, mode, captchaLength)
      case Err(e) => Err(e)
      case Ok(v) =>
        match EncodeAll(labels[1..], vocab, mode, captchaLength)
        case Err(e) => Err(e)
        case Ok(rest) => Ok([v] + rest)
  }

  /** `extraction_label(path_list, suffix)` against the vocabulary file `file` (`None` when it
      does not exist): the file afterwards, and the label vectors or the exception. The
      vocabulary is written only when the file is absent; the vectors are then computed from
      what the file holds. */
  function ExtractLabels(file: Option<Vocab>, paths: seq<string>, suffix: bool, mode: Mode, captchaLength: nat)
    : (r: (Option<Vocab>, Result<seq<seq<int>>, LabelError>))
    ensures file.Some? ==> r.0 == file
    ensures mode.Unsupported? ==> r == (file, Err(UnsupportedMode(mode.name)))
    ensures !mode.Unsupported? && file.None? ==>
      r.0.Some? && StrictlySorted(r.0.value) &&
      forall y :: y in r.0.value <==> y in Symbols(LabelsOf(paths, suffix), mode)
    ensures r.1.Ok? ==> |r.1.value| == |paths|
    ensures !mode.Unsupported? ==> r.0.Some? && r.1 == EncodeAll(LabelsOf(paths, suffix), r.0.value, mode, captchaLength)
  {
    if mode.Unsupported? then (file, Err(UnsupportedMode(mode.name)))
    else
      var labels := LabelsOf(paths, suffix);
      var written := if file.None? then Some(Vocabulary(labels, mode)) else file;
      (written, EncodeAll(labels, written.value, mode, captchaLength))
  }

  /** A second run over the same files changes nothing: the file written by the first run is
      kept, and the labels come out the same. */
  lemma ExtractLabelsIdempotent(file: Option<Vocab>, paths: seq<string>, suffix: bool, mode: Mode, captchaLength: nat)
    ensures var first := ExtractLabels(file, paths, suffix, mode, captchaLength);
      ExtractLabels(first.0, paths, suffix, mode, captchaLength) == first
    ensures file.Some? ==> ExtractLabels(file, paths, suffix, mode, captchaLength).0 == file
  {
  }

  /** Every symbol a label needs is in the vocabulary. */
  predicate Covers(vocab: Vocab, labels: seq<string>, mode: Mode) {
    forall y :: y in Symbols(labels, mode) ==> y in vocab
  }

  /** With a vocabulary that covers the labels, no label fails for a missing symbol: CTC and
      NUM_CLASSES always succeed and ORDINARY fails only on length. */
  lemma {:induction false} CoveredLabelsEncode(labels: seq<string>, vocab: Vocab, mode: Mode, captchaLength: nat)
    requires Covers(vocab, labels, mode) && !mode.Unsupported?
    ensures mode != Ordinary ==> EncodeAll(labels, vocab, mode, captchaLength).Ok?
    ensures mode == Ordinary ==>
      (EncodeAll(labels, vocab, mode, captchaLength).Ok? <==> forall k :: 0 <= k < |labels| ==> |labels[k]| <= captchaLength)
    ensures EncodeAll(labels, vocab, mode, captchaLength).Err? ==>
      EncodeAll(labels, vocab, mode, captchaLength).error.LabelTooLong?
    decreases |labels|
  {
    if labels != [] {
      CoversHead(labels, vocab, mode);
      CoversTail(labels, vocab, mode);
      CoveredLabelsEncode(labels[1..], vocab, mode, captchaLength);
      assert forall k :: 1 <= k < |labels| ==> labels[k] == labels[1..][k - 1];
    }
  }

  /** A covering vocabulary holds every symbol the first label needs. */
  lemma CoversHead(labels: seq<string>, vocab: Vocab, mode: Mode)
    requires labels != [] && Covers(vocab, labels, mode)
    ensures mode != NumClasses ==> forall i :: 0 <= i < |labels[0]| ==> [labels[0][i]] in vocab
    ensures mode == NumClasses ==> labels[0] in vocab
  {
    var l := labels[0];
    forall i | 0 <= i < |l| && mode != NumClasses ensures [l[i]] in vocab {
      assert 0 <= 0 < |labels| && 0 <= i < |labels[0]| && [l[i]] == [labels[0][i]];
      assert [l[i]] in CharSymbols(labels);
    }
    assert mode == NumClasses ==> l in Symbols(labels, mode);
  }

  /** A vocabulary covering the labels covers all but the first. */
  lemma CoversTail(labels: seq<string>, vocab: Vocab, mode: Mode)
    requires labels != [] && Covers(vocab, labels, mode)
    ensures Covers(vocab, labels[1..], mode)
  {
    forall y | y in Symbols(labels[1..], mode) ensures y in vocab {
      if mode != NumClasses {
        var k, i :| 0 <= k < |labels[1..]| && 0 <= i < |labels[1..][k]| && y == [labels[1..][k][i]];
        assert y in CharSymbols(labels) by {
          assert labels[k + 1] == labels[1..][k];
        }
      }
    }
  }

  /** A freshly written vocabulary covers the corpus it was built from. */
  lemma VocabularyCovers(labels: seq<string>, mode: Mode)
    ensures Covers(Vocabulary(labels, mode), labels, mode)
  {
  }

  /** A vocabulary built from a corpus covers every sub-corpus. */
  lemma {:induction false} CoversSubset(vocab: Vocab, all: seq<string>, part: seq<string>, mode: Mode)
    requires Covers(vocab, all, mode)
    requires forall l :: l in part ==> l in all
    ensures Covers(vocab, part, mode)
  {
    forall y | y in Symbols(part, mode) ensures y in vocab {
      if mode != NumClasses {
        var k, i :| 0 <= k < |part| && 0 <= i < |part[k]| && y == [part[k][i]];
        assert part[k] in part;
        var k' :| 0 <= k' < |all| && all[k'] == part[k];
        assert 0 <= k' < |all| && 0 <= i < |all[k']| && y == [all[k'][i]];
        assert y in CharSymbols(all);
      }
    }
  }

  /** The packaging script first extracts labels from train + validation + test with no
      vocabulary file, then from each part: the first call writes the file, and the later
      calls keep it and never fail for a missing symbol. */
  lemma PackagingRunsAgreeOnVocabulary(all: seq<string>, part: seq<string>, suffix: bool, mode: Mode, captchaLength: nat)
    requires !mode.Unsupported?
    requires forall p :: p in part ==> p in all
    ensures var file := ExtractLabels(None, all, suffix, mode, captchaLength).0;
      file == Some(Vocabulary(LabelsOf(all, suffix), mode)) &&
      var later := ExtractLabels(file, part, suffix, mode, captchaLength);
      later.0 == file &&
      (later.1.Err? ==> later.1.error.LabelTooLong?)
  {
    var labels := LabelsOf(all, suffix);
    var vocab := Vocabulary(labels, mode);
    VocabularyCovers(labels, mode);
    var partLabels := LabelsOf(part, suffix);
    var file := ExtractLabels(None, all, suffix, mode, captchaLength).0;
    assert file == Some(vocab);
    var later := ExtractLabels(file, part, suffix, mode, captchaLength);
    assert later == (file, EncodeAll(partLabels, vocab, mode, captchaLength));
    forall l | l in partLabels ensures l in labels {
      var k :| 0 <= k < |partLabels| && partLabels[k] == l;
      assert part[k] in part;
      var k' :| 0 <= k' < |all| && all[k'] == part[k];
      assert labels[k'] == l;
    }
    CoversSubset(vocab, labels, partLabels, mode);
    CoveredLabelsEncode(partLabels, vocab, mode, captchaLength);
  }

  // ================================================================ reader side

  /** The `label` feature `parse_function` declares: a fixed shape, or a variable-length
      int64 list. */
  datatype LabelShape = FixedLen(dims: seq<nat>) | VarLen

  function Product(dims: seq<nat>): nat {
    if dims == [] then 1 else dims[0] * Product(dims[1..])
  }

  /** `parse_function`'s label feature: `[CAPTCHA_LENGTH, N + 1]` floats in ORDINARY mode and
      `[N]` floats in NUM_CLASSES mode, both read from the vocabulary file, and a
      variable-length int64 list in CTC mode, which does not open the file. */
  function ReaderShape(mode: Mode, file: Option<Vocab>, captchaLength: nat): (r: Result<LabelShape, LabelError>)
    ensures r.Ok? <==> mode == Ctc || (!mode.Unsupported? && file.Some?)
    ensures r.Ok? ==> (r.value.VarLen? <==> mode == Ctc)
    ensures r.Ok? && mode == Ordinary ==> r.value.dims == [captchaLength, ModelClasses(file, true).value]
    ensures r.Ok? && mode == NumClasses ==> r.value.dims == [ModelClasses(file, false).value]
  {
    match mode
    case Ordinary => if file.None? then Err(VocabularyMissing) else Ok(FixedLen([captchaLength, |file.value| + 1]))
    case NumClasses => if file.None? then Err(VocabularyMissing) else Ok(FixedLen([|file.value|]))
    case Ctc => Ok(VarLen)
    case Unsupported(name) => Err(UnsupportedMode(name))
  }

  /** `Settings.settings()` and `Settings.settings_num_classes()`: the class count the
      models size their output layers with (N + 1 and N). */
  function ModelClasses(file: Option<Vocab>, withBlank: bool): (r: Result<nat, LabelError>)
    ensures r.Ok? <==> file.Some?
    ensures r.Ok? ==> r.value == |file.value| + (if withBlank then 1 else 0)
  {
    if file.None? then Err(VocabularyMissing) else Ok(|file.value| + if withBlank then 1 else 0)
  }

  /** What the writer stores is what the reader expects: whenever a label encodes, the
      reader's fixed shape has exactly as many elements as the vector (and the ORDINARY
      models' `Reshape((CAPTCHA_LENGTH, Settings.settings()))` and the NUM_CLASSES models'
      `Dense(Settings.settings_num_classes())` have that shape too); only CTC reads a
      variable-length list. */
  lemma ReaderShapeMatchesEncoding(text: string, vocab: Vocab, mode: Mode, captchaLength: nat)
    requires Encode(text, vocab, mode, captchaLength).Ok?
    ensures ReaderShape(mode, Some(vocab), captchaLength).Ok?
    ensures var shape := ReaderShape(mode, Some(vocab), captchaLength).value;
      var v := Encode(text, vocab, mode, captchaLength).value;
      (shape.FixedLen? ==> Product(shape.dims) == |v|) &&
      (shape.VarLen? <==> mode == Ctc)
    ensures mode == Ordinary ==>
      ReaderShape(mode, Some(vocab), captchaLength).value.dims == [captchaLength, ModelClasses(Some(vocab), true).value]
    ensures mode == NumClasses ==>
      ReaderShape(mode, Some(vocab), captchaLength).value.dims == [ModelClasses(Some(vocab), false).value]
  {
    if mode == Ordinary {
      OrdinaryEncodingBlocks(text, vocab, captchaLength);
      ProductPair(captchaLength, |vocab| + 1);
    } else if mode == NumClasses {
      ProductPair(|vocab|, 1);
    }
  }

  /** The element count of a one- and of a two-dimensional shape. */
  lemma ProductPair(a: nat, b: nat)
    ensures Product([a]) == a && Product([a, b]) == a * b
  {
    assert [a][1..] == [] && [a, b][1..] == [b] && [b][1..] == [];
  }
}
