/** `Predict_Image`: fitting an image onto the canvas, reading the network's answer back into
    text through the vocabulary file, and the running tally of `predict_image`. The network
    itself is a parameter. */
module Prediction {
  import opened Wrappers
  import opened PyStr
  import opened Settings
  import opened Canvas
  import opened LabelCodec

  /** `vector[0]`, the network's answer for the batch of one image: one row of class scores
      in NUM_CLASSES mode, one row of scores per character position in the other modes. */
  datatype Output = Scores(row: seq<real>) | Positions(rows: seq<seq<real>>)

  /** The exceptions that end a prediction. */
  datatype PredictError =
    | EmptyScores            // `np.argmax` of an empty row
    | NoImage(path: string)  // `decode_image` gave `None`, which `model.predict` refuses
    | NoVocabularyFile      // the vocabulary file cannot be opened
    | UnknownMode(name: string)
    | ShapeMismatch          // an answer of the other rank than the mode's network gives

  /** What `decode_vector` returns as its text: a string in ORDINARY and CTC mode, and in
      NUM_CLASSES mode the dictionary lookup itself, which may be `None`. */
  datatype Answer = Text(text: string) | Class(symbol: Option<string>)

  /** `str(text)` of an answer. */
  function Str(a: Answer): string {
    match a
    case Text(t) => t
    case Class(None) => "None"
    case Class(Some(s)) => s
  }

  // ---------------------------------------------------------------- argmax

  /** `np.argmax(row)`: the position of the first largest score. */
  function ArgMax(row: seq<real>): (r: nat)
    requires |row| > 0
    ensures r < |row|
    ensures forall j :: 0 <= j < |row| ==> row[j] <= row[r]
    ensures forall j :: 0 <= j < r ==> row[j] < row[r]
  {
    if |row| == 1 then 0
    else
      var k := ArgMax(row[..|row| - 1]);
      assert forall j :: 0 <= j < |row| - 1 ==> row[..|row| - 1][j] == row[j];
      if row[|row| - 1] > row[k] then |row| - 1 else k
  }

  /** The integer label vector `v` as the network's floating-point scores. */
  function AsReals(v: seq<int>): (r: seq<real>)
    ensures |r| == |v| && forall j :: 0 <= j < |v| ==> r[j] == v[j] as real
  {
    seq(|v|, j requires 0 <= j < |v| => v[j] as real)
  }

  /** The top class of a one-hot row is the class it marks. */
  lemma ArgMaxOneHot(k: nat, width: nat)
    requires k < width
    ensures ArgMax(AsReals(OneHot(k, width))) == k
  {
    var row := AsReals(OneHot(k, width));
    assert row[k] == 1.0;
  }

  // ---------------------------------------------------------------- vocabulary file

  /** `num_classes.get(key)` on the reloaded vocabulary file, whose keys are the class
      numbers `str(0)` … `str(N-1)` and whose values are the symbols. */
  function Get(vocab: Vocab, key: string): (r: Option<string>)
    ensures r.Some? ==> r.value in vocab
  {
    GetFrom(vocab, key, 0)
  }

  function GetFrom(vocab: Vocab, key: string, i: nat): (r: Option<string>)
    ensures r.Some? ==> r.value in vocab
    decreases |vocab| - i
  {
    if i >= |vocab| then None
    else if Decimal(i) == key then Some(vocab[i])
    else GetFrom(vocab, key, i + 1)
  }

  lemma {:induction false} GetFromDecimal(vocab: Vocab, k: nat, i: nat)
    ensures GetFrom(vocab, Decimal(k), i) == if i <= k < |vocab| then Some(vocab[k]) else None
    decreases |vocab| - i
  {
    if i < |vocab| {
      if Decimal(i) == Decimal(k) {
        DecimalInjective(i, k);
      } else {
        GetFromDecimal(vocab, k, i + 1);
      }
    }
  }

  /** Class `k` names symbol `k` of the vocabulary, and a class past its end names none. */
  lemma GetClass(vocab: Vocab, k: nat)
    ensures Get(vocab, Decimal(k)) == if k < |vocab| then Some(vocab[k]) else None
  {
    GetFromDecimal(vocab, k, 0);
  }

  // ---------------------------------------------------------------- decoding

  /** The text a row of scores contributes: the symbol of its top class, or nothing when
      the top class has no symbol (the padding class N, or the CTC blank). */
  function Symbol(vocab: Vocab, row: seq<real>): string
    requires |row| > 0
  {
    match Get(vocab, Decimal(ArgMax(row)))
    case Some(s) => s
    case None => []
  }

  /** The ORDINARY and CTC reading: the symbols of the rows, joined in order, or the error
      of an empty row. */
  function Transcribe(rows: seq<seq<real>>, vocab: Vocab): (r: Result<string, PredictError>)
    ensures r.Err? ==> r.error == EmptyScores && rows != []
    ensures r.Ok? ==> forall k :: 0 <= k < |rows| ==> |rows[k]| > 0
  {
    if rows == [] then Ok([])
    else match Transcribe(rows[..|rows| - 1], vocab)
      case Err(e) => Err(e)
      case Ok(t) =>
        if |rows[|rows| - 1]| == 0 then Err(EmptyScores) else Ok(t + Symbol(vocab, rows[|rows| - 1]))
  }

  /** An empty row anywhere fails the whole reading, and otherwise it succeeds. */
  lemma {:induction false} TranscribeFails(rows: seq<seq<real>>, vocab: Vocab)
    ensures Transcribe(rows, vocab).Err? <==> exists k :: 0 <= k < |rows| && |rows[k]| == 0
    ensures Transcribe(rows, vocab).Err? ==> Transcribe(rows, vocab).error == EmptyScores
  {
    if rows != [] {
      var front := rows[..|rows| - 1];
      TranscribeFails(front, vocab);
      assert forall k :: 0 <= k < |front| ==> front[k] == rows[k];
      if Transcribe(front, vocab).Err? {
        var k :| 0 <= k < |front| && |front[k]| == 0;
        assert |rows[k]| == 0;
      }
    }
  }

  /** The `for i in vector` loop of `decode_vector`. */
  method DecodeRows(rows: seq<seq<real>>, vocab: Vocab) returns (r: Result<string, PredictError>)
    ensures r == Transcribe(rows, vocab)
  {
    var textList: string := [];
    for i := 0 to |rows|
      invariant Transcribe(rows[..i], vocab) == Ok(textList)
    {
      assert rows[..i + 1][..i] == rows[..i];
      if |rows[i]| == 0 {
        TranscribeFails(rows, vocab);
        TranscribeFails(rows[..i + 1], vocab);
        return Err(EmptyScores);
      }
      var k := ArgMax(rows[i]);
      var text := Get(vocab, Decimal(k));
      assert rows[..i + 1][i] == rows[i];
      assert Transcribe(rows[..i + 1], vocab) == Ok(textList + Symbol(vocab, rows[i]));
      if text.Some? && text.value != [] {
        textList := textList + text.value;
      } else {
        assert textList + Symbol(vocab, rows[i]) == textList;
      }
    }
    assert rows[..|rows|] == rows;
    r := Ok(textList);
  }

  /** `decode_vector(vector, num_classes)`: the answer, or the exception. The file is opened
      before the mode is looked at. */
  function Decode(mode: Mode, file: Option<Vocab>, out: Output): (r: Result<Answer, PredictError>)
    ensures r.Ok? ==> file.Some? && !mode.Unsupported?
    ensures r.Ok? ==> (r.value.Class? <==> mode == NumClasses)
  {
    if file.None? then Err(NoVocabularyFile)
    else
      var vocab := file.value;
      match mode
      case Ordinary | Ctc => (
        if !out.Positions? then Err(ShapeMismatch)
        else match Transcribe(out.rows, vocab)
          case Err(e) => Err(e)
          case Ok(t) => Ok(Text(t)))
      case NumClasses =>
        if !out.Scores? then Err(ShapeMismatch)
        else if |out.row| == 0 then Err(EmptyScores)
        else Ok(Class(Get(vocab, Decimal(ArgMax(out.row)))))
      case Unsupported(name) => Err(UnknownMode(name))
  }

  method DecodeVector(mode: Mode, file: Option<Vocab>, out: Output) returns (r: Result<Answer, PredictError>)
    ensures r == Decode(mode, file, out)
  {
    if file.None? {
      return Err(NoVocabularyFile);
    }
    var vocab := file.value;
    match mode {
      case Ordinary =>
        r := DecodePositions(out, vocab);
      case NumClasses =>
        if !out.Scores? {
          return Err(ShapeMismatch);
        }
        if |out.row| == 0 {
          return Err(EmptyScores);
        }
        var text := ArgMax(out.row);
        r := Ok(Class(Get(vocab, Decimal(text))));
      case Ctc =>
        r := DecodePositions(out, vocab);
      case Unsupported(name) =>
        r := Err(UnknownMode(name));
    }
  }

  /** The ORDINARY and CTC branch of `decode_vector`, which are the same. */
  method DecodePositions(out: Output, vocab: Vocab) returns (r: Result<Answer, PredictError>)
    ensures r == Decode(Ordinary, Some(vocab), out) && r == Decode(Ctc, Some(vocab), out)
  {
    if !out.Positions? {
      return Err(ShapeMismatch);
    }
    var text := DecodeRows(out.rows, vocab);
    if text.Err? {
      return Err(text.error);
    }
    r := Ok(Text(text.value));
  }

  // ---------------------------------------------------------------- round trips

  /** The top classes of `rows` spell `text` one character per row, and the rows after it
      have a top class without a symbol. */
  predicate Spells(rows: seq<seq<real>>, vocab: Vocab, text: string) {
    |text| <= |rows| && forall k :: 0 <= k < |rows| ==> SpellsAt(rows, vocab, text, k)
  }

  /** Row `k` has a top class, whose symbol is character `k` of `text`, or nothing past its end. */
  predicate SpellsAt(rows: seq<seq<real>>, vocab: Vocab, text: string, k: nat)
    requires k < |rows|
  {
    |rows[k]| > 0 && Symbol(vocab, rows[k]) == (if k < |text| then [text[k]] else [])
  }

  /** Rows that spell `text` are read back as `text`. */
  lemma TranscribeSpells(rows: seq<seq<real>>, vocab: Vocab, text: string)
    requires Spells(rows, vocab, text)
    ensures Transcribe(rows, vocab) == Ok(text)
  {
    TranscribeSpelled(rows, vocab, text, |rows|);
    assert rows[..|rows|] == rows && text[..|text|] == text;
  }

  lemma {:induction false} TranscribeSpelled(rows: seq<seq<real>>, vocab: Vocab, text: string, i: nat)
    requires Spells(rows, vocab, text) && i <= |rows|
    ensures Transcribe(rows[..i], vocab) == Ok(text[..if i < |text| then i else |text|])
  {
    if i > 0 {
      TranscribeSpelled(rows, vocab, text, i - 1);
      SpelledStep(rows, vocab, text, i);
    }
  }

  lemma SpelledStep(rows: seq<seq<real>>, vocab: Vocab, text: string, i: nat)
    requires Spells(rows, vocab, text) && 0 < i <= |rows|
    requires Transcribe(rows[..i - 1], vocab) == Ok(text[..if i - 1 < |text| then i - 1 else |text|])
    ensures Transcribe(rows[..i], vocab) == Ok(text[..if i < |text| then i else |text|])
  {
    var t := text[..if i - 1 < |text| then i - 1 else |text|];
    assert SpellsAt(rows, vocab, text, i - 1);
    assert rows[..i][..i - 1] == rows[..i - 1] && rows[..i][i - 1] == rows[i - 1];
    TranscribeStep(rows[..i], vocab, t);
    if i - 1 < |text| {
      PrefixStep(text, i - 1);
    } else {
      assert t + [] == t;
    }
  }

  lemma PrefixStep(text: string, j: nat)
    requires j < |text|
    ensures text[..j] + [text[j]] == text[..j + 1]
  {
  }

  /** One more row adds its symbol to the reading so far. */
  lemma TranscribeStep(rows: seq<seq<real>>, vocab: Vocab, t: string)
    requires rows != [] && |rows[|rows| - 1]| > 0
    requires Transcribe(rows[..|rows| - 1], vocab) == Ok(t)
    ensures Transcribe(rows, vocab) == Ok(t + Symbol(vocab, rows[|rows| - 1]))
  {
  }

  /** The score row of the one-hot row `j` contributes the symbol of class `j`. */
  lemma SymbolOfOneHot(vocab: Vocab, j: nat)
    requires j <= |vocab|
    ensures Symbol(vocab, AsReals(OneHot(j, |vocab| + 1))) == if j < |vocab| then vocab[j] else []
  {
    ArgMaxOneHot(j, |vocab| + 1);
    GetClass(vocab, j);
  }

  /** The rows of an ORDINARY label vector, as scores. */
  function OrdinaryScores(v: seq<int>, vocab: Vocab, captchaLength: nat): Output {
    if |v| != captchaLength * (|vocab| + 1) then Positions([])
    else
      var rows := Rows(v, |vocab| + 1, captchaLength);
      Positions(seq(captchaLength, i requires 0 <= i < captchaLength => AsReals(rows[i])))
  }

  /** ORDINARY mode: a network answering exactly the label vector a record stores is read
      back as the label, the padding rows adding nothing. */
  lemma OrdinaryRoundTrip(text: string, vocab: Vocab, captchaLength: nat)
    requires Encode(text, vocab, Ordinary, captchaLength).Ok?
    ensures Decode(Ordinary, Some(vocab), OrdinaryScores(Encode(text, vocab, Ordinary, captchaLength).value, vocab, captchaLength))
        == Ok(Text(text))
  {
    OrdinaryEncodingBlocks(text, vocab, captchaLength);
    var out := OrdinaryScores(Encode(text, vocab, Ordinary, captchaLength).value, vocab, captchaLength);
    var rows := out.rows;
    assert |text| <= captchaLength;
    forall k | 0 <= k < captchaLength
      ensures SpellsAt(rows, vocab, text, k)
    {
      var j := Slot(text, vocab, k);
      assert rows[k] == AsReals(OneHot(j, |vocab| + 1));
      SymbolOfOneHot(vocab, j);
    }
    TranscribeSpells(rows, vocab, text);
  }

  /** The one-hot score rows of a CTC label: one row per character, of width N + 1 (the
      last class being the blank). */
  function CtcScores(indices: seq<nat>, vocab: Vocab): Output {
    Positions(seq(|indices|, i requires 0 <= i < |indices| => AsReals(OneHot(indices[i], |vocab| + 1))))
  }

  /** CTC mode: a network whose top class at each step is the next label character is read
      back as the label. Repeated characters are kept: the reading does not merge them. */
  lemma CtcRoundTrip(text: string, vocab: Vocab)
    requires Encode(text, vocab, Ctc, 0).Ok?
    ensures Decode(Ctc, Some(vocab), CtcScores(Encode(text, vocab, Ctc, 0).value, vocab)) == Ok(Text(text))
  {
    CtcEncoding(text, vocab, 0);
    var v := Encode(text, vocab, Ctc, 0).value;
    var rows := CtcScores(v, vocab).rows;
    forall k | 0 <= k < |rows|
      ensures SpellsAt(rows, vocab, text, k)
    {
      SymbolOfOneHot(vocab, v[k]);
    }
    TranscribeSpells(rows, vocab, text);
  }

  /** NUM_CLASSES mode: a network answering exactly the label vector is read back as the
      label's class. */
  lemma NumClassesRoundTrip(text: string, vocab: Vocab)
    requires Encode(text, vocab, NumClasses, 0).Ok?
    ensures Decode(NumClasses, Some(vocab), Scores(AsReals(Encode(text, vocab, NumClasses, 0).value)))
      == Ok(Class(Some(text)))
  {
    NumClassesEncoding(text, vocab);
    var k := IndexOf(vocab, text).value;
    assert Encode(text, vocab, NumClasses, 0).value == OneHot(k, |vocab|);
    ArgMaxOneHot(k, |vocab|);
    GetClass(vocab, k);
  }

  // ---------------------------------------------------------------- predict_image

  /** `decode_label`: the label a file name carries, the text before its first `_`. */
  function DecodeLabel(path: string): (r: string)
    ensures '_' !in r && r <= Stem(path)
    ensures r == LabelOf(path, true)
  {
    BeforeFirst(Stem(path), '_')
  }

  /** One call of `predict_image`: whether the answer printed the same as the file's label,
      or the exception. `images` gives the size of every readable image file. */
  function Predict(path: string, images: map<string, Size>, cfg: Config, file: Option<Vocab>, net: Batch -> Output)
    : (r: Result<bool, PredictError>)
    ensures path !in images || Pad(images[path], cfg.imageHeight, cfg.imageWidth).Err? ==> r == Err(NoImage(path))
    ensures r.Ok? ==> file.Some? && !cfg.mode.Unsupported?
    ensures file.None? && path in images && Pad(images[path], cfg.imageHeight, cfg.imageWidth).Ok? ==>
      r == Err(NoVocabularyFile)
    ensures path in images && Pad(images[path], cfg.imageHeight, cfg.imageWidth).Ok? ==>
      var d := Decode(cfg.mode, file, net(DecodeImage(images[path], cfg.imageHeight, cfg.imageWidth).value));
      (r.Ok? <==> d.Ok?) && (r.Ok? ==> r.value == (Str(d.value) == DecodeLabel(path)))
  {
    var image := if path in images then DecodeImage(images[path], cfg.imageHeight, cfg.imageWidth) else None;
    if image.None? then Err(NoImage(path))
    else match Decode(cfg.mode, file, net(image.value))
      case Err(e) => Err(e)
      case Ok(a) => Ok(Str(a) == DecodeLabel(path))
  }

  /** The module globals `right_value`, the number of images judged, and
      `predicted_value`, the number whose answer matched their label. */
  class Tally {
    var rightValue: nat
    var predictedValue: nat

    /** No more matches than images judged. */
    ghost predicate Valid()
      reads this
    {
      predictedValue <= rightValue
    }

    constructor()
      ensures rightValue == 0 && predictedValue == 0 && Valid()
    {
      rightValue := 0;
      predictedValue := 0;
    }

    /** `predict_image` (the network being `net`): on success one more image is judged and,
        when the answer matched, one more match; an exception leaves the tally alone. */
    method PredictImage(path: string, images: map<string, Size>, cfg: Config, file: Option<Vocab>, net: Batch -> Output)
      returns (r: Result<bool, PredictError>)
      requires Valid()
      modifies this
      ensures Valid()
      ensures r == Predict(path, images, cfg, file, net)
      ensures r.Err? ==> rightValue == old(rightValue) && predictedValue == old(predictedValue)
      ensures r.Ok? ==> rightValue == old(rightValue) + 1
      ensures r.Ok? ==> predictedValue == old(predictedValue) + (if r.value then 1 else 0)
    {
      var image: Option<Batch> := None;
      if path in images {
        image := DecodeImage(images[path], cfg.imageHeight, cfg.imageWidth);
      }
      if image.None? {
        return Err(NoImage(path));
      }
      var vector := net(image.value);
      var text := DecodeVector(cfg.mode, file, vector);
      if text.Err? {
        return Err(text.error);
      }
      var rightText := DecodeLabel(path);
      if Str(text.value) != rightText {
        rightValue := rightValue + 1;
        r := Ok(false);
      } else {
        predictedValue := predictedValue + 1;
        rightValue := rightValue + 1;
        r := Ok(true);
      }
    }
  }

  /** With the vocabulary the records were written with, a network that answers every
      ORDINARY image with its stored label vector is judged right on it. */
  lemma PerfectOrdinaryNetworkIsRight(path: string, images: map<string, Size>, cfg: Config, vocab: Vocab, net: Batch -> Output)
    requires cfg.mode == Ordinary
    requires path in images && Pad(images[path], cfg.imageHeight, cfg.imageWidth).Ok?
    requires Encode(DecodeLabel(path), vocab, Ordinary, cfg.captchaLength).Ok?
    requires forall c :: (net(c) ==
      OrdinaryScores(Encode(DecodeLabel(path), vocab, Ordinary, cfg.captchaLength).value, vocab, cfg.captchaLength))
    ensures Predict(path, images, cfg, Some(vocab), net) == Ok(true)
  {
    OrdinaryRoundTrip(DecodeLabel(path), vocab, cfg.captchaLength);
  }
}
