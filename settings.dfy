/** The constants of the generated `settings.py` that the modelled code reads. They are
    parameters of the model; `Default` records the values the scaffolder writes. */
module Settings {

  /** `MODE`: per-character one-hot labels, whole-label classes, or index sequences for a
      CTC loss. Any other string is kept, since every mode switch raises on it. */
  datatype Mode = Ordinary | NumClasses | Ctc | Unsupported(name: string)

  /** `MODE`, `IMAGE_HEIGHT`, `IMAGE_WIDTH` and `CAPTCHA_LENGTH`. */
  datatype Config = Config(mode: Mode, imageHeight: nat, imageWidth: nat, captchaLength: nat)

  const Default: Config := Config(Ordinary, 80, 240, 8)

  /** Spelling of `MODE` in the settings file. */
  function ParseMode(s: string): (m: Mode)
    ensures m.Unsupported? ==> m.name == s
    ensures m == Ordinary <==> s == "ORDINARY"
    ensures m == NumClasses <==> s == "NUM_CLASSES"
    ensures m == Ctc <==> s == "CTC"
  {
    if s == "ORDINARY" then Ordinary
    else if s == "NUM_CLASSES" then NumClasses
    else if s == "CTC" then Ctc
    else Unsupported(s)
  }
}
