/** The pieces of Python's `str`, `re.split` and `os.path` (POSIX flavour) that the
    scaffolded code relies on, stated over `string` = `seq<char>`. */
module PyStr {
  import opened Wrappers

  // ---------------------------------------------------------------- ordering

  /** Python's `a < b` on `str`: lexicographic by code point, a proper prefix being
      smaller. (Dafny's own `<` on sequences means "proper prefix" only.) */
  predicate LexLess(a: string, b: string)
    decreases |a|
  {
    if |a| == 0 then |b| > 0
    else if |b| == 0 then false
    else if a[0] != b[0] then a[0] < b[0]
    else LexLess(a[1..], b[1..])
  }

  lemma {:induction false} LexLessIrreflexive(a: string)
    ensures !LexLess(a, a)
    decreases |a|
  {
    if |a| > 0 {
      LexLessIrreflexive(a[1..]);
    }
  }

  lemma {:induction false} LexLessTotal(a: string, b: string)
    ensures a == b || LexLess(a, b) || LexLess(b, a)
    decreases |a|
  {
    if |a| > 0 && |b| > 0 && a[0] == b[0] {
      LexLessTotal(a[1..], b[1..]);
      if a[1..] == b[1..] {
        assert a == [a[0]] + a[1..] && b == [b[0]] + b[1..];
      }
    }
  }

  lemma {:induction false} LexLessTransitive(a: string, b: string, c: string)
    requires LexLess(a, b) && LexLess(b, c)
    ensures LexLess(a, c)
    decreases |a|
  {
    if |a| > 0 && a[0] == b[0] && b[0] == c[0] {
      LexLessTransitive(a[1..], b[1..], c[1..]);
    }
  }

  lemma {:induction false} LexLessAsymmetric(a: string, b: string)
    ensures !(LexLess(a, b) && LexLess(b, a))
    decreases |a|
  {
    if |a| > 0 && |b| > 0 && a[0] == b[0] {
      LexLessAsymmetric(a[1..], b[1..]);
    }
  }

  /** On one-character strings the order is the order of the code points. */
  lemma SingleCharOrder(x: char, y: char)
    ensures LexLess([x], [y]) <==> x < y
  {
    if x == y {
      LexLessIrreflexive([x]);
    }
  }

  // ---------------------------------------------------------------- searching

  /** `s.rfind(c)`, with `None` for -1. */
  function LastIndexOf(s: string, c: char): (r: Option<nat>)
    ensures r.None? <==> c !in s
    ensures r.Some? ==> r.value < |s| && s[r.value] == c && c !in s[r.value + 1..]
  {
    if s == [] then None
    else if s[|s| - 1] == c then Some(|s| - 1)
    else
      assert s == s[..|s| - 1] + [s[|s| - 1]];
      LastIndexOf(s[..|s| - 1], c)
  }

  /** `re.split(sep, s)[0]` for a one-character literal pattern: the text before the
      first `sep`, or all of `s` when there is none. */
  function BeforeFirst(s: string, sep: char): (r: string)
    ensures r <= s && sep !in r
    ensures |r| < |s| ==> s[|r|] == sep
    ensures sep !in s ==> r == s
  {
    if s == [] then []
    else if s[0] == sep then []
    else [s[0]] + BeforeFirst(s[1..], sep)
  }

  /** `re.split(sep, s)` for a one-character literal pattern: every field, in order. */
  function SplitOn(s: string, sep: char): (r: seq<string>)
    ensures |r| >= 1 && r[0] == BeforeFirst(s, sep)
    ensures forall k :: 0 <= k < |r| ==> sep !in r[k]
    ensures JoinWith(r, sep) == s
    decreases |s|
  {
    var head := BeforeFirst(s, sep);
    if |head| == |s| then
      [s]
    else
      var rest := SplitOn(s[|head| + 1..], sep);
      assert s == head + [sep] + s[|head| + 1..];
      [head] + rest
  }

  /** `sep.join(fields)`. */
  function JoinWith(fields: seq<string>, sep: char): string
    requires |fields| >= 1
  {
    if |fields| == 1 then fields[0] else fields[0] + [sep] + JoinWith(fields[1..], sep)
  }

  /** A field free of the separator, followed by the separator, is the first field. */
  lemma {:induction false} BeforeFirstOfJoin(a: string, b: string, sep: char)
    requires sep !in a
    ensures BeforeFirst(a + [sep] + b, sep) == a
  {
    if a != [] {
      assert (a + [sep] + b)[1..] == a[1..] + [sep] + b;
      BeforeFirstOfJoin(a[1..], b, sep);
      assert a == [a[0]] + a[1..];
    }
  }

  /** Splitting what `JoinWith` joined gives back the fields, when none holds the separator. */
  lemma {:induction false} SplitOnJoin(fields: seq<string>, sep: char)
    requires |fields| >= 1 && forall k :: 0 <= k < |fields| ==> sep !in fields[k]
    ensures SplitOn(JoinWith(fields, sep), sep) == fields
    decreases |fields|
  {
    if |fields| > 1 {
      var rest := JoinWith(fields[1..], sep);
      assert JoinWith(fields, sep) == fields[0] + [sep] + rest;
      SplitOnCons(fields[0], rest, sep);
      assert forall k :: 0 <= k < |fields| - 1 ==> fields[1..][k] == fields[k + 1];
      SplitOnJoin(fields[1..], sep);
      assert fields == [fields[0]] + fields[1..];
    }
  }

  /** A separator-free field, the separator, and the rest split into that field and the
      splitting of the rest. */
  /** Text without the separator is a single field. */
  lemma SplitOnWhole(s: string, sep: char)
    requires sep !in s
    ensures SplitOn(s, sep) == [s]
  {
    assert |BeforeFirst(s, sep)| == |s|;
  }

  /** A separator-free field appended after a separator becomes the last field. */
  lemma {:induction false} SplitOnSnoc(init: string, field: string, sep: char)
    requires sep !in field
    ensures SplitOn(init + [sep] + field, sep) == SplitOn(init, sep) + [field]
    decreases |init|
  {
    var h := BeforeFirst(init, sep);
    SplitOnWhole(field, sep);
    if |h| == |init| {
      assert sep !in init;
      SplitOnWhole(init, sep);
      SplitOnCons(init, field, sep);
    } else {
      var rest := init[|h| + 1..];
      SplitInit(init, sep);
      SplitOnCons(h, rest, sep);
      assert init + [sep] + field == h + [sep] + (rest + [sep] + field);
      SplitOnCons(h, rest + [sep] + field, sep);
      SplitOnSnoc(rest, field, sep);
    }
  }

  /** Text holding the separator is its first field, the separator and the rest. */
  lemma SplitInit(s: string, sep: char)
    requires |BeforeFirst(s, sep)| < |s|
    ensures s == BeforeFirst(s, sep) + [sep] + s[|BeforeFirst(s, sep)| + 1..]
  {
    var h := BeforeFirst(s, sep);
    assert s[..|h|] == h;
    assert s == s[..|h|] + [s[|h|]] + s[|h| + 1..];
  }

  lemma SplitOnCons(head: string, rest: string, sep: char)
    requires sep !in head
    ensures SplitOn(head + [sep] + rest, sep) == [head] + SplitOn(rest, sep)
  {
    var s := head + [sep] + rest;
    BeforeFirstOfJoin(head, rest, sep);
    assert s[|head| + 1..] == rest;
  }

  /** Python's `sub in s`. */
  predicate Contains(s: string, sub: string) {
    exists i: nat | i <= |s| :: OccursAt(s, sub, i)
  }

  predicate OccursAt(s: string, sub: string, i: nat) {
    i + |sub| <= |s| && s[i..i + |sub|] == sub
  }

  // ---------------------------------------------------------------- os.path

  predicate AllSlashes(s: string) {
    forall i :: 0 <= i < |s| ==> s[i] == '/'
  }

  /** `s.rstrip(c)`. */
  function RStrip(s: string, c: char): (r: string)
    ensures r <= s && (r == [] || r[|r| - 1] != c)
    ensures forall i :: |r| <= i < |s| ==> s[i] == c
  {
    if s == [] then []
    else if s[|s| - 1] == c then RStrip(s[..|s| - 1], c)
    else s
  }

  /** `os.path.split(p)` on POSIX: the tail is what follows the last `/`; the head is
      what precedes it, with trailing slashes removed unless it is all slashes. */
  function PathSplit(p: string): (r: (string, string))
    ensures '/' !in r.1 && |r.1| <= |p| && p[|p| - |r.1|..] == r.1
  {
    var i := match LastIndexOf(p, '/') case None => 0 case Some(k) => k + 1;
    var head, tail := p[..i], p[i..];
    if head != [] && !AllSlashes(head) then (RStrip(head, '/'), tail) else (head, tail)
  }

  /** `os.path.basename(p)`, the tail of `os.path.split`. */
  function Basename(p: string): string {
    PathSplit(p).1
  }

  /** `os.path.join(a, b)` on POSIX. */
  function PathJoin(a: string, b: string): string {
    if |b| > 0 && b[0] == '/' then b
    else if a == [] || a[|a| - 1] == '/' then a + b
    else a + "/" + b
  }

  /** The last component of a path joined from a directory and a plain file name is that
      file name. */
  lemma BasenameOfJoin(dir: string, name: string)
    requires name != [] && '/' !in name
    ensures Basename(PathJoin(dir, name)) == name
  {
    var p := PathJoin(dir, name);
    var i := |p| - |name|;
    assert p[i..] == name;
    forall j | i <= j < |p| ensures p[j] != '/' {
      assert p[j] == name[j - i];
    }
    if dir != [] {
      assert p[i - 1] == '/';
      var k := LastIndexOf(p, '/').value;
      forall j | k < j < |p| ensures p[j] != '/' {
        assert p[j] == p[k + 1..][j - k - 1];
      }
      assert k == i - 1;
    } else {
      assert p == name;
    }
  }

  /** A head as `PathSplit` produces it: empty, all slashes, or not ending in a slash. */
  predicate SplitHead(h: string) {
    h == [] || AllSlashes(h) || h[|h| - 1] != '/'
  }

  /** Joining a split head with a plain file name and splitting again gives both back. */
  lemma SplitOfJoin(h: string, t: string)
    requires SplitHead(h) && t != [] && '/' !in t
    ensures PathSplit(PathJoin(h, t)) == (h, t)
  {
    var p := PathJoin(h, t);
    if h == [] {
      assert p == t;
    } else if h[|h| - 1] == '/' {
      assert p == h + t;
      assert p[|h| - 1] == '/';
      assert p[|h|..] == t;
      assert p[..|h|] == h;
    } else {
      assert p == h + "/" + t;
      assert p[|h|] == '/';
      assert p[|h| + 1..] == t;
      assert p[..|h| + 1] == h + "/";
      assert !AllSlashes(h + "/") by { assert (h + "/")[|h| - 1] != '/'; }
      assert RStrip(h + "/", '/') == h by {
        assert (h + "/")[..|h|] == h;
      }
    }
  }

  lemma HeadOfSplit(p: string)
    ensures SplitHead(PathSplit(p).0)
  {
  }

  /** `os.path.splitext(name)` for a name with no `/`: the extension starts at the last
      dot, provided some character before that dot is not a dot (so `.bashrc` has none). */
  function SplitExt(name: string): (r: (string, string))
    ensures r.0 + r.1 == name
    ensures r.1 == [] || (r.1[0] == '.' && '.' !in r.1[1..])
  {
    match LastIndexOf(name, '.')
    case None => (name, [])
    case Some(d) =>
      if exists j :: 0 <= j < d && name[j] != '.' then
        assert name == name[..d] + name[d..];
        (name[..d], name[d..])
      else (name, [])
  }

  /** `os.path.splitext(os.path.split(p)[-1])[0]`: the file name without its extension. */
  function Stem(p: string): string {
    SplitExt(Basename(p)).0
  }

  /** Appending an extension to a root that has a non-dot character and no dot-free
      problem splits back into the same root and extension. */
  lemma SplitExtOfAppend(root: string, ext: string)
    requires exists j :: 0 <= j < |root| && root[j] != '.'
    requires |ext| >= 1 && ext[0] == '.' && '.' !in ext[1..]
    ensures SplitExt(root + ext) == (root, ext)
  {
    var name := root + ext;
    assert name[|root|] == '.';
    assert name[|root| + 1..] == ext[1..];
    var d := LastIndexOf(name, '.');
    assert d == Some(|root|);
    var j :| 0 <= j < |root| && root[j] != '.';
    assert name[j] != '.';
    assert name[..|root|] == root && name[|root|..] == ext;
  }

  // ---------------------------------------------------------------- str(n)

  function DigitChar(d: nat): (c: char)
    requires d < 10
    ensures '0' <= c <= '9'
  {
    ('0' as int + d) as char
  }

  /** `str(n)` for a non-negative integer. */
  function Decimal(n: nat): (r: string)
    ensures |r| >= 1 && (n >= 10 ==> |r| >= 2)
    ensures forall k :: 0 <= k < |r| ==> '0' <= r[k] <= '9'
  {
    if n < 10 then [DigitChar(n)] else Decimal(n / 10) + [DigitChar(n % 10)]
  }

  /** Distinct numbers print differently. */
  lemma {:induction false} DecimalInjective(a: nat, b: nat)
    requires Decimal(a) == Decimal(b)
    ensures a == b
    decreases a
  {
    if a >= 10 && b >= 10 {
      var da, db := Decimal(a), Decimal(b);
      assert da[|da| - 1] == DigitChar(a % 10) && db[|db| - 1] == DigitChar(b % 10);
      assert da[..|da| - 1] == Decimal(a / 10) && db[..|db| - 1] == Decimal(b / 10);
      DecimalInjective(a / 10, b / 10);
    } else if a < 10 && b < 10 {
      assert Decimal(a)[0] == DigitChar(a);
    }
  }

  // ---------------------------------------------------------------- str.replace

  /** `s.replace(old, new)`: every non-overlapping occurrence, scanning left to right;
      an empty `old` inserts `new` before every character and at the end. */
  function Replace(s: string, pattern: string, repl: string): string
    decreases |s|
  {
    if pattern == [] then InsertEverywhere(s, repl)
    else if |s| < |pattern| then s
    else if s[..|pattern|] == pattern then repl + Replace(s[|pattern|..], pattern, repl)
    else [s[0]] + Replace(s[1..], pattern, repl)
  }

  function InsertEverywhere(s: string, repl: string): string {
    if s == [] then repl else repl + [s[0]] + InsertEverywhere(s[1..], repl)
  }

  /** Replacing one character by one character maps the string position by position. */
  lemma {:induction false} ReplaceOneChar(s: string, o: char, n: char)
    ensures |Replace(s, [o], [n])| == |s|
    ensures forall i :: 0 <= i < |s| ==>
      Replace(s, [o], [n])[i] == (if s[i] == o then n else s[i])
  {
    if s != [] {
      ReplaceOneChar(s[1..], o, n);
      var r := Replace(s, [o], [n]);
      var rest := Replace(s[1..], [o], [n]);
      assert r == (if s[0] == o then [n] else [s[0]]) + rest by {
        assert s[..1] == [s[0]];
      }
      forall i | 0 <= i < |s|
        ensures r[i] == (if s[i] == o then n else s[i])
      {
        if i > 0 {
          assert r[i] == rest[i - 1];
          assert s[i] == s[1..][i - 1];
        }
      }
    }
  }

  // ---------------------------------------------------------------- float(s), format

  predicate AllDigits(s: string) {
    forall i :: 0 <= i < |s| ==> '0' <= s[i] <= '9'
  }

  /** The number a string of decimal digits spells (0 for none). */
  function DigitsValue(s: string): nat
    requires AllDigits(s)
  {
    if s == [] then 0 else DigitsValue(s[..|s| - 1]) * 10 + (s[|s| - 1] as int - '0' as int)
  }

  function Pow10(k: nat): (r: nat)
    ensures r >= 1
  {
    if k == 0 then 1 else 10 * Pow10(k - 1)
  }

  /** The value of digits read after a decimal point: `0.d1d2...`. */
  function FractionValue(digits: string): real
    requires AllDigits(digits)
  {
    if digits == [] then 0.0
    else ((digits[0] as int - '0' as int) as real + FractionValue(digits[1..])) / 10.0
  }

  /** `float(s)` for an unsigned decimal numeral: digits, then optionally a point and more
      digits, with at least one digit in all; `None` where Python raises. */
  function ParseUnsigned(s: string): Option<real> {
    var whole := BeforeFirst(s, '.');
    Numeral(whole, if |whole| < |s| then s[|whole| + 1..] else [])
  }

  /** The number `whole.fraction`, if both parts are digits and not both empty. */
  function Numeral(whole: string, fraction: string): Option<real> {
    if |whole| + |fraction| == 0 || !AllDigits(whole) || !AllDigits(fraction) then None
    else Some(DigitsValue(whole) as real + FractionValue(fraction))
  }

  /** A numeral without its sign, if it has one. */
  function Unsigned(s: string): string {
    if |s| > 0 && (s[0] == '-' || s[0] == '+') then s[1..] else s
  }

  /** `float(s)` for a decimal numeral with an optional sign. */
  function ParseFloat(s: string): Option<real> {
    match ParseUnsigned(Unsigned(s))
    case None => None
    case Some(x) => Some(if |s| > 0 && s[0] == '-' then -x else x)
  }

  /** `str(n)` spells `n`. */
  lemma {:induction false} DecimalValue(n: nat)
    ensures AllDigits(Decimal(n)) && DigitsValue(Decimal(n)) == n
  {
    if n >= 10 {
      DecimalValue(n / 10);
      var d := Decimal(n);
      assert d[..|d| - 1] == Decimal(n / 10);
    }
  }

  /** Leading zeros do not change the number spelled. */
  lemma {:induction false} LeadingZeros(zeros: string, s: string)
    requires forall i :: 0 <= i < |zeros| ==> zeros[i] == '0'
    requires AllDigits(s)
    ensures AllDigits(zeros + s) && DigitsValue(zeros + s) == DigitsValue(s)
    decreases |zeros| + |s|
  {
    var t := zeros + s;
    if s != [] {
      assert t[..|t| - 1] == zeros + s[..|s| - 1];
      LeadingZeros(zeros, s[..|s| - 1]);
    } else if zeros != [] {
      assert t == zeros && t[..|t| - 1] == zeros[..|zeros| - 1] + [];
      LeadingZeros(zeros[..|zeros| - 1], []);
    }
  }

  /** A number below `10 ** k` takes at most `k` digits. */
  lemma {:induction false} DecimalLength(n: nat, k: nat)
    requires k >= 1 && n < Pow10(k)
    ensures |Decimal(n)| <= k
  {
    if n >= 10 {
      DecimalLength(n / 10, k - 1);
    }
  }

  /** `format(n, "0{width}d")` from the digits of `n`: left-padded with zeros. */
  function ZeroPad(digits: string, width: nat): (r: string)
    ensures |r| == if |digits| < width then width else |digits|
    decreases width - |digits|
  {
    if |digits| < width then ZeroPad("0" + digits, width) else digits
  }

  /** Padding keeps the digits and the number they spell. */
  lemma {:induction false} ZeroPadValue(digits: string, width: nat)
    requires AllDigits(digits)
    ensures AllDigits(ZeroPad(digits, width)) && DigitsValue(ZeroPad(digits, width)) == DigitsValue(digits)
    decreases width - |digits|
  {
    if |digits| < width {
      LeadingZeros("0", digits);
      ZeroPadValue("0" + digits, width);
    }
  }

  /** A non-negative number with four decimal places, `whole.ffff`: what `format(x, ".4f")`
      keeps of a non-negative `x`. */
  datatype Fixed = Fixed(whole: nat, fraction: nat)

  predicate ValidFixed(x: Fixed) {
    x.fraction < 10000
  }

  /** The number `x` stands for. */
  function FixedValue(x: Fixed): real {
    x.whole as real + x.fraction as real / 10000.0
  }

  /** `format(x, ".4f")`. */
  function Fixed4(x: Fixed): string {
    Decimal(x.whole) + "." + ZeroPad(Decimal(x.fraction), 4)
  }

  /** The digits on either side of the point of `Fixed4(x)`. */
  lemma Fixed4Digits(x: Fixed)
    requires ValidFixed(x)
    ensures var w, f := Decimal(x.whole), ZeroPad(Decimal(x.fraction), 4);
      |w| >= 1 && AllDigits(w) && DigitsValue(w) == x.whole &&
      |f| == 4 && AllDigits(f) && DigitsValue(f) == x.fraction
  {
    DecimalValue(x.whole);
    DecimalValue(x.fraction);
    assert Pow10(4) == 10000;
    DecimalLength(x.fraction, 4);
    ZeroPadValue(Decimal(x.fraction), 4);
  }

  /** A `.4f` numeral has a point and otherwise digits only: no sign, no `-`, no `/`. */
  lemma Fixed4Chars(x: Fixed)
    requires ValidFixed(x)
    ensures '.' in Fixed4(x) && '-' !in Fixed4(x) && '/' !in Fixed4(x)
  {
    Fixed4Digits(x);
    var w, f := Decimal(x.whole), ZeroPad(Decimal(x.fraction), 4);
    var s := w + "." + f;
    assert s[|w|] == '.';
    forall i | 0 <= i < |s| ensures s[i] != '-' && s[i] != '/' {
      if i > |w| {
        assert s[i] == f[i - |w| - 1];
      }
    }
  }

  /** `float` reads back what `.4f` wrote. */
  lemma ParseFixed4(x: Fixed)
    requires ValidFixed(x)
    ensures ParseFloat(Fixed4(x)) == Some(FixedValue(x))
  {
    var w, f := Decimal(x.whole), ZeroPad(Decimal(x.fraction), 4);
    Fixed4Digits(x);
    FourPlaces(f);
    ParsePoint4(x, w, f);
  }

  /** Digits spelling the whole part of `x`, a point, and digits spelling its fraction
      are read as `x`. */
  lemma ParsePoint4(x: Fixed, whole: string, fraction: string)
    requires |whole| >= 1 && AllDigits(whole) && DigitsValue(whole) == x.whole
    requires AllDigits(fraction) && FractionValue(fraction) == x.fraction as real / 10000.0
    ensures ParseFloat(whole + "." + fraction) == Some(FixedValue(x))
  {
    ParsePointed(whole, fraction, FixedValue(x));
  }

  /** A numeral `whole.fraction` of digits is read as the number `v` it spells. */
  lemma ParsePointed(whole: string, fraction: string, v: real)
    requires |whole| >= 1 && AllDigits(whole) && AllDigits(fraction)
    requires v == DigitsValue(whole) as real + FractionValue(fraction)
    ensures ParseFloat(whole + "." + fraction) == Some(v)
  {
    SplitPointed(whole, fraction);
    NumeralValue(whole, fraction, v);
  }

  lemma NumeralValue(whole: string, fraction: string, v: real)
    requires |whole| >= 1 && AllDigits(whole) && AllDigits(fraction)
    requires v == DigitsValue(whole) as real + FractionValue(fraction)
    ensures Numeral(whole, fraction) == Some(v)
  {
  }

  lemma FourPlaces(f: string)
    requires |f| == 4 && AllDigits(f)
    ensures FractionValue(f) == DigitsValue(f) as real / 10000.0
  {
    assert f[1..][1..] == f[2..] && f[2..][1..] == f[3..] && f[3..][1..] == [];
    assert f[..3][..2] == f[..2] && f[..2][..1] == f[..1] && f[..1][..0] == [];
    var d0, d1, d2, d3 := f[0] as int - '0' as int, f[1] as int - '0' as int, f[2] as int - '0' as int, f[3] as int - '0' as int;
    assert FractionValue(f[3..]) == d3 as real / 10.0;
    assert FractionValue(f[2..]) == (d2 as real + d3 as real / 10.0) / 10.0;
    assert DigitsValue(f[..1]) == d0;
    assert DigitsValue(f[..2]) == d0 * 10 + d1;
    assert DigitsValue(f[..3]) == (d0 * 10 + d1) * 10 + d2;
    assert DigitsValue(f) == ((d0 * 10 + d1) * 10 + d2) * 10 + d3;
  }

  lemma SplitPointed(whole: string, fraction: string)
    requires |whole| >= 1 && '0' <= whole[0] <= '9' && '.' !in whole
    ensures ParseFloat(whole + "." + fraction) == Numeral(whole, fraction)
  {
    var s := whole + "." + fraction;
    assert s[0] == whole[0];
    BeforeFirstOfJoin(whole, fraction, '.');
    assert s[|whole| + 1..] == fraction;
  }
}
