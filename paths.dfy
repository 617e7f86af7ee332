/** The small path utilities: `Image_Processing.rename_path` and `rename_suffix`, which
    rename files in bulk, and `cheak_path`, which picks a free name for a file about to be
    written. The file system is known by the set of paths that exist; a rename is the pair
    `(source, target)` handed to `os.rename`. */
module Paths {
  import opened Wrappers
  import opened PyStr

  /** `name.replace(original, reform)` on a file's name without its extension, kept with its
      directory and extension, when `original in name`; `None` when the file is left alone. */
  function RenameTarget(path: string, original: string, reform: string): (r: Option<string>)
    ensures r.Some? <==> Contains(Stem(path), original)
    ensures r.Some? && reform != [] && '/' !in reform ==>
      PathSplit(r.value) == (PathSplit(path).0, Replace(Stem(path), original, reform) + SplitExt(Basename(path)).1)
  {
    var (dir, name) := PathSplit(path);
    var (stem, ext) := SplitExt(name);
    if Contains(stem, original) then
      RenameStaysInDirectory(path, original, reform);
      Some(PathJoin(dir, Replace(stem, original, reform) + ext))
    else None
  }

  /** A file renamed with a non-empty, slash-free replacement stays in its directory, and
      its new name is the replaced stem followed by the old extension. */
  lemma RenameStaysInDirectory(path: string, original: string, reform: string)
    requires Contains(Stem(path), original)
    ensures var (dir, name) := PathSplit(path);
      var (stem, ext) := SplitExt(name);
      reform != [] && '/' !in reform ==>
        PathSplit(PathJoin(dir, Replace(stem, original, reform) + ext)) == (dir, Replace(stem, original, reform) + ext)
  {
    var (dir, name) := PathSplit(path);
    var (stem, ext) := SplitExt(name);
    if reform != [] && '/' !in reform {
      NameFree(name, stem, ext);
      ReplaceAvoids(stem, original, reform, '/');
      ReplaceNonEmpty(stem, original, reform);
      HeadOfSplit(path);
      SplitOfJoin(dir, Replace(stem, original, reform) + ext);
    }
  }

  /** A character in neither the text nor the replacement is not in the result. */
  lemma {:induction false} ReplaceAvoids(s: string, pattern: string, repl: string, c: char)
    requires c !in s && c !in repl
    ensures c !in Replace(s, pattern, repl)
    decreases |s|
  {
    if pattern == [] {
      InsertAvoids(s, repl, c);
    } else if |s| >= |pattern| {
      if s[..|pattern|] == pattern {
        assert forall i :: 0 <= i < |s| - |pattern| ==> s[|pattern|..][i] == s[|pattern| + i];
        ReplaceAvoids(s[|pattern|..], pattern, repl, c);
      } else {
        assert forall i :: 0 <= i < |s| - 1 ==> s[1..][i] == s[1 + i];
        ReplaceAvoids(s[1..], pattern, repl, c);
      }
    }
  }

  lemma {:induction false} InsertAvoids(s: string, repl: string, c: char)
    requires c !in s && c !in repl
    ensures c !in InsertEverywhere(s, repl)
    decreases |s|
  {
    if s != [] {
      assert forall i :: 0 <= i < |s| - 1 ==> s[1..][i] == s[1 + i];
      InsertAvoids(s[1..], repl, c);
    }
  }

  /** Text that contains the pattern is not empty after a non-empty replacement. */
  lemma ReplaceNonEmpty(s: string, pattern: string, repl: string)
    requires Contains(s, pattern) && repl != []
    ensures Replace(s, pattern, repl) != []
  {
    var i: nat :| i <= |s| && OccursAt(s, pattern, i);
  }

  /** The renames `rename_path` asks for, in the order of `paths`. */
  function Renames(paths: seq<string>, original: string, reform: string): (r: seq<(string, string)>)
    ensures |r| <= |paths|
    ensures forall k :: 0 <= k < |r| ==> r[k].0 in paths && RenameTarget(r[k].0, original, reform) == Some(r[k].1)
  {
    if paths == [] then []
    else
      var last := paths[|paths| - 1];
      var init := Renames(paths[..|paths| - 1], original, reform);
      match RenameTarget(last, original, reform)
      case None => init
      case Some(t) => init + [(last, t)]
  }

  /** A file is renamed exactly when `original` occurs in its name without the extension. */
  lemma {:induction false} RenamedIff(paths: seq<string>, original: string, reform: string, p: string)
    ensures (exists t :: (p, t) in Renames(paths, original, reform))
            <==> p in paths && RenameTarget(p, original, reform).Some?
    decreases |paths|
  {
    if paths != [] {
      var init := paths[..|paths| - 1];
      RenamedIff(init, original, reform, p);
      assert paths == init + [paths[|paths| - 1]];
      if p in paths && RenameTarget(p, original, reform).Some? && p !in init {
        assert (p, RenameTarget(p, original, reform).value) in Renames(paths, original, reform);
      }
    }
  }

  /** `rename_path`: one pass over the paths, renaming as it goes. */
  method RenamePath(paths: seq<string>, original: string, reform: string)
    returns (renames: seq<(string, string)>)
    ensures renames == Renames(paths, original, reform)
  {
    renames := [];
    for i := 0 to |paths|
      invariant renames == Renames(paths[..i], original, reform)
    {
      assert paths[..i + 1][..i] == paths[..i];
      var target := RenameTarget(paths[i], original, reform);
      if target.Some? {
        renames := renames + [(paths[i], target.value)];
      }
    }
    assert paths[..|paths|] == paths;
  }

  /** `sub in s` for a one-character `sub`. */
  lemma ContainsChar(s: string, c: char)
    ensures Contains(s, [c]) <==> c in s
  {
    if c in s {
      var i :| 0 <= i < |s| && s[i] == c;
      assert s[i..i + 1] == [c];
      assert OccursAt(s, [c], i);
    }
    if Contains(s, [c]) {
      var i: nat :| i <= |s| && OccursAt(s, [c], i);
      assert s[i] == s[i..i + 1][0];
    }
  }

  /** With the default arguments, a renamed file keeps its directory and extension, its new
      name has no dot left before the extension, and a second pass leaves it alone. */
  lemma RenameDotsOnce(path: string)
    requires RenameTarget(path, ".", "_").Some?
    ensures var t := RenameTarget(path, ".", "_").value;
      && PathSplit(t).0 == PathSplit(path).0
      && SplitExt(PathSplit(t).1).1 == SplitExt(PathSplit(path).1).1
      && '.' !in SplitExt(PathSplit(t).1).0
      && RenameTarget(t, ".", "_") == None
  {
    var (dir, name) := PathSplit(path);
    var (stem, ext) := SplitExt(name);
    ContainsChar(stem, '.');
    var renamed := Replace(stem, ".", "_");
    NameFree(name, stem, ext);
    DotsReplaced(stem);
    var newName := renamed + ext;
    assert '/' !in newName;
    HeadOfSplit(path);
    SplitOfJoin(dir, newName);
    NoDotLeft(renamed, ext);
    ContainsChar(renamed, '.');
  }

  /** The parts `os.path.splitext` cuts a slash-free name into are slash-free. */
  lemma NameFree(name: string, stem: string, ext: string)
    requires '/' !in name && stem + ext == name
    ensures '/' !in stem && '/' !in ext
  {
    forall i | 0 <= i < |stem| ensures stem[i] != '/' {
      assert stem[i] == name[i];
    }
    forall i | 0 <= i < |ext| ensures ext[i] != '/' {
      assert ext[i] == name[|stem| + i];
    }
  }

  /** `stem.replace('.', '_')` has the length of `stem`, no dot, and no new slash. */
  lemma DotsReplaced(stem: string)
    ensures var renamed := Replace(stem, ".", "_");
      |renamed| == |stem| && '.' !in renamed && ('/' !in stem ==> '/' !in renamed)
  {
    var renamed := Replace(stem, ".", "_");
    ReplaceOneChar(stem, '.', '_');
    assert "." == ['.'] && "_" == ['_'];
    assert '.' !in renamed by {
      forall i | 0 <= i < |renamed| ensures renamed[i] != '.' { }
    }
    if '/' !in stem {
      forall i | 0 <= i < |renamed| ensures renamed[i] != '/' {
        assert renamed[i] == '_' || renamed[i] == stem[i];
      }
    }
  }

  /** A dot-free non-empty name followed by an extension splits back into the two. */
  lemma NoDotLeft(renamed: string, ext: string)
    requires renamed != [] && '.' !in renamed
    requires ext == [] || (ext[0] == '.' && '.' !in ext[1..])
    ensures SplitExt(renamed + ext) == (renamed, ext)
  {
    if ext == [] {
      assert renamed + ext == renamed;
      assert LastIndexOf(renamed, '.') == None;
    } else {
      assert renamed[0] != '.';
      SplitExtOfAppend(renamed, ext);
    }
  }

  /** `rename_suffix`: the same directory and name, with the extension `.jpg`. */
  function SuffixTarget(path: string): (r: string)
    ensures Stem(path) != [] ==> PathSplit(r) == (PathSplit(path).0, Stem(path) + ".jpg")
  {
    var (dir, name) := PathSplit(path);
    var stem := SplitExt(name).0;
    if stem != [] then
      JpgSplits(path, dir, name, stem);
      PathJoin(dir, stem + ".jpg")
    else PathJoin(dir, stem + ".jpg")
  }

  /** Each path paired with the name `target` gives it, in order. */
  function RenamesBy(paths: seq<string>, target: string -> string): (r: seq<(string, string)>)
    ensures |r| == |paths|
  {
    if paths == [] then []
    else
      var last := paths[|paths| - 1];
      RenamesBy(paths[..|paths| - 1], target) + [(last, target(last))]
  }

  /** The `k`th rename moves the `k`th path to the name `target` gives it. */
  lemma {:induction false} RenamesByAt(paths: seq<string>, target: string -> string, k: nat)
    requires k < |paths|
    ensures RenamesBy(paths, target)[k] == (paths[k], target(paths[k]))
  {
    var n := |paths| - 1;
    if k < n {
      RenamesByAt(paths[..n], target, k);
      assert paths[..n][k] == paths[k];
    }
  }

  /** The renames `rename_suffix` asks for: one per path, in order. */
  function SuffixRenames(paths: seq<string>): (r: seq<(string, string)>)
    ensures |r| == |paths|
    ensures forall k :: 0 <= k < |paths| ==> r[k] == (paths[k], SuffixTarget(paths[k]))
  {
    var r := RenamesBy(paths, SuffixTarget);
    forall k | 0 <= k < |paths| ensures r[k] == (paths[k], SuffixTarget(paths[k])) {
      RenamesByAt(paths, SuffixTarget, k);
    }
    r
  }

  /** `rename_suffix`: one pass over the paths, renaming each. */
  method RenameSuffix(paths: seq<string>) returns (renames: seq<(string, string)>)
    ensures renames == SuffixRenames(paths)
  {
    renames := [];
    for i := 0 to |paths|
      invariant renames == RenamesBy(paths[..i], SuffixTarget)
    {
      assert paths[..i + 1][..i] == paths[..i] && paths[..i + 1][i] == paths[i];
      renames := renames + [(paths[i], SuffixTarget(paths[i]))];
    }
    assert paths[..|paths|] == paths;
  }

  /** A name with some character other than a dot keeps its directory and name, gains the
      extension `.jpg`, and a second `rename_suffix` renames it to itself. */
  lemma SuffixOnce(path: string)
    requires var stem := SplitExt(PathSplit(path).1).0; exists j :: 0 <= j < |stem| && stem[j] != '.'
    ensures PathSplit(SuffixTarget(path)).0 == PathSplit(path).0
    ensures SplitExt(PathSplit(SuffixTarget(path)).1) == (SplitExt(PathSplit(path).1).0, ".jpg")
    ensures SuffixTarget(SuffixTarget(path)) == SuffixTarget(path)
  {
    var (dir, name) := PathSplit(path);
    var stem := SplitExt(name).0;
    JpgSplits(path, dir, name, stem);
    JpgExtension(stem);
    var t := PathJoin(dir, stem + ".jpg");
    assert SuffixTarget(path) == t;
    assert SuffixTarget(t) == PathJoin(dir, SplitExt(stem + ".jpg").0 + ".jpg");
  }

  /** The `.jpg` name of `path` splits back into its directory and the stem with `.jpg`. */
  lemma JpgSplits(path: string, dir: string, name: string, stem: string)
    requires (dir, name) == PathSplit(path) && stem == SplitExt(name).0 && stem != []
    ensures PathSplit(PathJoin(dir, stem + ".jpg")) == (dir, stem + ".jpg")
  {
    NameFree(name, stem, SplitExt(name).1);
    Jpg();
    HeadOfSplit(path);
    SplitOfJoin(dir, stem + ".jpg");
  }

  /** A stem with a character other than a dot keeps `.jpg` as its extension. */
  lemma JpgExtension(stem: string)
    requires exists j :: 0 <= j < |stem| && stem[j] != '.'
    ensures SplitExt(stem + ".jpg") == (stem, ".jpg")
  {
    Jpg();
    SplitExtOfAppend(stem, ".jpg");
  }

  lemma Jpg()
    ensures |".jpg"| == 4 && ".jpg"[0] == '.' && '.' !in ".jpg"[1..] && '/' !in ".jpg"
  {
    assert ".jpg"[1..] == "jpg";
  }

  // ---------------------------------------------------------------- cheak_path

  /** The pieces `cheak_path` builds a new name from: the directory, the name up to its
      first `_`, and the extension. */
  function Parts(path: string): (string, string, string) {
    var (dir, name) := PathSplit(path);
    var (stem, ext) := SplitExt(name);
    (dir, BeforeFirst(stem, '_'), ext)
  }

  /** The `number`-th versioned name, `<base>_V<number>.0<ext>` in the same directory. */
  function Versioned(path: string, number: nat): string {
    var (dir, base, ext) := Parts(path);
    PathJoin(dir, base + "_V" + Decimal(number) + ".0" + ext)
  }

  /** The versioned name sits in the directory of `path`, and is the name `<base>_V<k>.0<ext>`
      itself. */
  lemma VersionedName(path: string, number: nat)
    ensures PathSplit(Versioned(path, number)) ==
      (PathSplit(path).0, Parts(path).1 + "_V" + Decimal(number) + ".0" + Parts(path).2)
  {
    var (dir, base, ext) := Parts(path);
    PartsFree(path);
    VersionedFree(base, number, ext);
    HeadOfSplit(path);
    SplitOfJoin(dir, base + "_V" + Decimal(number) + ".0" + ext);
  }

  lemma VersionedFree(base: string, number: nat, ext: string)
    requires '/' !in base && '/' !in ext
    ensures '/' !in base + "_V" + Decimal(number) + ".0" + ext
  {
    DecimalValue(number);
    var d := Decimal(number);
    assert forall i :: 0 <= i < |d| ==> d[i] != '/';
    assert '/' !in "_V" && '/' !in ".0";
  }

  /** `cheak_path` as written: a path that exists is replaced by its first versioned name,
      whether or not that one exists too. */
  function CheakPathAsWritten(path: string, existing: set<string>): (r: string)
    ensures path !in existing ==> r == path
    ensures path in existing ==> r == Versioned(path, 1)
  {
    if path in existing then Versioned(path, 1) else path
  }

  /** When the first versioned name is taken as well, the path returned already exists and
      the caller overwrites it. */
  lemma AsWrittenMayCollide(path: string)
    ensures var existing := {path, Versioned(path, 1)};
      CheakPathAsWritten(path, existing) in existing
  {
  }

  lemma PartsFree(path: string)
    ensures '/' !in Parts(path).1 && '/' !in Parts(path).2
  {
    var (dir, name) := PathSplit(path);
    var (stem, ext) := SplitExt(name);
    var base := BeforeFirst(stem, '_');
    NameFree(name, stem, ext);
    forall i | 0 <= i < |base| ensures base[i] != '/' {
      assert base[i] == stem[i];
    }
  }

  /** Versioned names with different numbers are different paths. */
  lemma VersionedInjective(path: string, a: nat, b: nat)
    requires Versioned(path, a) == Versioned(path, b)
    ensures a == b
  {
    var (dir, base, ext) := Parts(path);
    PartsFree(path);
    var p, s := base + "_V", ".0" + ext;
    var na, nb := p + Decimal(a) + s, p + Decimal(b) + s;
    assert base + "_V" + Decimal(a) + ".0" + ext == na;
    assert base + "_V" + Decimal(b) + ".0" + ext == nb;
    assert na[0] != '/' && nb[0] != '/' by {
      if base != [] {
        assert na[0] == base[0] && nb[0] == base[0];
      }
    }
    JoinInjective(dir, na, nb);
    MiddleEqual(p, Decimal(a), Decimal(b), s);
    DecimalInjective(a, b);
  }

  lemma JoinInjective(dir: string, x: string, y: string)
    requires x != [] && y != [] && x[0] != '/' && y[0] != '/'
    requires PathJoin(dir, x) == PathJoin(dir, y)
    ensures x == y
  {
    if dir == [] || dir[|dir| - 1] == '/' {
      assert x == PathJoin(dir, x)[|dir|..];
      assert y == PathJoin(dir, y)[|dir|..];
    } else {
      assert x == PathJoin(dir, x)[|dir| + 1..];
      assert y == PathJoin(dir, y)[|dir| + 1..];
    }
  }

  lemma MiddleEqual(p: string, m1: string, m2: string, s: string)
    requires p + m1 + s == p + m2 + s
    ensures m1 == m2
  {
    var x := p + m1 + s;
    assert |m1| == |m2|;
    assert m1 == x[|p|..|p| + |m1|];
    assert m2 == (p + m2 + s)[|p|..|p| + |m2|];
  }

  /** `cheak_path` as its counter and loop evidently mean it: try `_V1.0`, `_V2.0`, ... until
      a name is free. The loop ends because every name it tries is a different member of the
      finite set of existing paths. */
  method CheckPath(path: string, existing: set<string>) returns (r: string)
    ensures r !in existing
    ensures path !in existing ==> r == path
    ensures path in existing ==>
      exists k :: 1 <= k && r == Versioned(path, k) && forall j :: 1 <= j < k ==> Versioned(path, j) in existing
  {
    if path !in existing {
      return path;
    }
    var number := 1;
    ghost var tried: set<string> := {};
    while Versioned(path, number) in existing
      invariant number >= 1
      invariant forall j :: 1 <= j < number ==> Versioned(path, j) in existing
      invariant tried == Tried(path, number)
      invariant |tried| == number - 1 && tried <= existing
      decreases |existing| - |tried|
    {
      TryNext(path, number);
      SubsetSize(Tried(path, number + 1), existing);
      tried := Tried(path, number + 1);
      number := number + 1;
    }
    r := Versioned(path, number);
  }

  /** The versioned names tried before `number`. */
  function Tried(path: string, number: nat): set<string> {
    set j | 1 <= j < number :: Versioned(path, j)
  }

  /** Each new number gives a name not tried before, and joins the names tried. */
  lemma TryNext(path: string, number: nat)
    requires number >= 1
    ensures Versioned(path, number) !in Tried(path, number)
    ensures Tried(path, number + 1) == Tried(path, number) + {Versioned(path, number)}
  {
    if Versioned(path, number) in Tried(path, number) {
      var j :| 1 <= j < number && Versioned(path, j) == Versioned(path, number);
      VersionedInjective(path, j, number);
    }
    TriedGrows(path, number);
  }

  lemma TriedGrows(path: string, number: nat)
    requires number >= 1
    ensures Tried(path, number + 1) == Tried(path, number) + {Versioned(path, number)}
  {
    var v := Versioned(path, number);
    assert v in Tried(path, number + 1);
    forall x | x in Tried(path, number + 1) ensures x in Tried(path, number) || x == v {
      var j :| 1 <= j < number + 1 && x == Versioned(path, j);
      if j < number {
        assert x in Tried(path, number);
      }
    }
  }

  lemma SubsetSize(a: set<string>, b: set<string>)
    requires a <= b
    ensures |a| <= |b|
  {
    assert b == a + (b - a);
  }
}
