/** One changed file of a pull request, the extension filter, and the
    record mapping both platform clients share. */
module FileChanges {
  import opened Results
  import opened Text

  datatype FileChange = FileChange(filename: string, patch: string, status: string) {
    /** `FileChange.matchesExtensions`: looks at the filename only. */
    predicate MatchesExtensions(extensions: seq<string>) {
      Matches(filename, extensions)
    }
  }

  /** Some extension, once trimmed, ends `filename`: `anyMatch` over the list
      in order. Comparison is case-sensitive char by char. */
  function Matches(filename: string, extensions: seq<string>): (b: bool)
    ensures b <==> exists i | 0 <= i < |extensions| :: EndsWith(filename, Trim(extensions[i]))
    ensures |extensions| == 0 ==> !b
  {
    if |extensions| == 0 then
      false
    else
      var rest := Matches(filename, extensions[1..]);
      MatchInTail(filename, extensions);
      EndsWith(filename, Trim(extensions[0])) || rest
  }

  /** An extension of the tail matches exactly when an extension after the
      head matches. */
  lemma MatchInTail(filename: string, extensions: seq<string>)
    requires |extensions| > 0
    ensures (exists i | 0 <= i < |extensions| - 1 :: EndsWith(filename, Trim(extensions[1..][i])))
        <==> (exists i | 1 <= i < |extensions| :: EndsWith(filename, Trim(extensions[i])))
  {
    assert forall i | 0 <= i < |extensions| - 1 :: extensions[1..][i] == extensions[i + 1];
  }

  /** The filter reads neither the patch nor the status. */
  lemma MatchIgnoresPatchAndStatus(a: FileChange, b: FileChange, extensions: seq<string>)
    requires a.filename == b.filename
    ensures a.MatchesExtensions(extensions) == b.MatchesExtensions(extensions)
  {
  }

  /** With a single extension, matching is `endsWith` of the trimmed extension. */
  lemma MatchOne(filename: string, ext: string)
    ensures Matches(filename, [ext]) == EndsWith(filename, Trim(ext))
  {
    assert [ext][0] == ext;
  }

  /** With a single extension that has no blank margins, matching is `endsWith`. */
  lemma MatchSingleTrimmed(filename: string, ext: string)
    requires Trimmed(ext)
    ensures Matches(filename, [ext]) == EndsWith(filename, ext)
  {
    MatchOne(filename, ext);
    TrimTrimmed(ext);
  }

  /** Matching is case-sensitive and whole-suffix: `.java` accepts `Foo.java`
      but neither `Foo.JAVA` nor `Foo.javax`. */
  lemma MatchIsCaseSensitive()
    ensures Matches("Foo.java", [".java"])
    ensures !Matches("Foo.JAVA", [".java"])
    ensures !Matches("Foo.javax", [".java"])
  {
    var e := ".java";
    assert Trimmed(e) by {
      assert e[0] == '.' && e[4] == 'a';
    }
    var a, b, c := "Foo.java", "Foo.JAVA", "Foo.javax";
    assert EndsWith(a, e) by {
      assert a[3..] == e;
    }
    assert !EndsWith(b, e) by {
      assert b[3..][1] != e[1];
    }
    assert !EndsWith(c, e) by {
      assert c[4..][4] != e[4];
    }
    MatchSingleTrimmed(a, e);
    MatchSingleTrimmed(b, e);
    MatchSingleTrimmed(c, e);
  }

  /** Blank margins around an extension are ignored. */
  lemma {:induction false} MatchIgnoresBlankMargins(filename: string, p: string, ext: string, q: string)
    requires AllBlank(p) && AllBlank(q) && Trimmed(ext)
    ensures Matches(filename, [p + ext + q]) == Matches(filename, [ext])
  {
    MatchOne(filename, p + ext + q);
    MatchOne(filename, ext);
    TrimRecoversCore(p, ext, q);
    TrimTrimmed(ext);
  }

  /** An extension that is blank (or empty) matches every filename. */
  lemma {:induction false} BlankExtensionMatchesAll(filename: string, extensions: seq<string>, i: nat)
    requires i < |extensions| && AllBlank(extensions[i])
    ensures Matches(filename, extensions)
  {
    var e := extensions[i];
    assert e + "" + "" == e;
    TrimRecoversCore(e, "", "");
    assert filename[|filename|..] == "";
  }

  /** Adding extensions never turns a match into a non-match. */
  lemma MatchIsMonotone(filename: string, extensions: seq<string>, more: seq<string>)
    requires forall k | 0 <= k < |extensions| :: extensions[k] in more
    ensures Matches(filename, extensions) ==> Matches(filename, more)
  {
    if Matches(filename, extensions) {
      var i :| 0 <= i < |extensions| && EndsWith(filename, Trim(extensions[i]));
      var j :| 0 <= j < |more| && more[j] == extensions[i];
    }
  }

  /** Keeps, in order, the records whose filename matches. */
  function Filter(changes: seq<FileChange>, extensions: seq<string>): (r: seq<FileChange>)
    ensures |r| <= |changes|
    ensures forall c | c in r :: c in changes && c.MatchesExtensions(extensions)
    ensures forall c | c in changes && c.MatchesExtensions(extensions) :: c in r
  {
    if |changes| == 0 then
      []
    else
      var rest := Filter(changes[1..], extensions);
      assert forall c | c in changes :: c == changes[0] || c in changes[1..];
      if changes[0].MatchesExtensions(extensions) then [changes[0]] + rest else rest
  }

  /** Filtering commutes with concatenation, so it keeps the relative order. */
  lemma {:induction false} FilterAppend(xs: seq<FileChange>, ys: seq<FileChange>, extensions: seq<string>)
    ensures Filter(xs + ys, extensions) == Filter(xs, extensions) + Filter(ys, extensions)
    decreases |xs|
  {
    if |xs| > 0 {
      assert (xs + ys)[1..] == xs[1..] + ys;
      FilterAppend(xs[1..], ys, extensions);
    } else {
      assert xs + ys == ys;
    }
  }

  /** Filtering an already filtered list changes nothing. */
  lemma {:induction false} FilterIdempotent(changes: seq<FileChange>, extensions: seq<string>)
    ensures Filter(Filter(changes, extensions), extensions) == Filter(changes, extensions)
    decreases |changes|
  {
    if |changes| > 0 {
      var c := changes[0];
      var rest := Filter(changes[1..], extensions);
      FilterIdempotent(changes[1..], extensions);
      if c.MatchesExtensions(extensions) {
        assert ([c] + rest)[1..] == rest;
      }
    }
  }

  /** A file as a platform lists it: the patch may be missing (a null
      reference, or a binary diff the platform declines to show). */
  datatype PlatformFile = PlatformFile(filename: string, patch: Option<string>, status: string)

  /** `new FileChange(name, patch != null ? patch : "", status)`. */
  function ToFileChange(f: PlatformFile): (c: FileChange)
    ensures c.filename == f.filename && c.status == f.status
    ensures f.patch.None? ==> c.patch == ""
    ensures f.patch.Some? ==> c.patch == f.patch.value
  {
    FileChange(f.filename, f.patch.GetOr(""), f.status)
  }

  function ToFileChanges(files: seq<PlatformFile>): (r: seq<FileChange>)
    ensures |r| == |files|
    ensures forall i | 0 <= i < |files| :: r[i] == ToFileChange(files[i])
  {
    seq(|files|, i requires 0 <= i < |files| => ToFileChange(files[i]))
  }

  /** The loop both platform clients run: map each listed file to a record,
      keep the records whose filename matches. */
  function MapFilter(files: seq<PlatformFile>, extensions: seq<string>): (r: seq<FileChange>)
    ensures |r| <= |files|
    ensures forall c | c in r :: c.MatchesExtensions(extensions)
    ensures forall c | c in r :: exists i | 0 <= i < |files| :: c == ToFileChange(files[i])
    ensures forall i | 0 <= i < |files| && Matches(files[i].filename, extensions) :: ToFileChange(files[i]) in r
  {
    var mapped := ToFileChanges(files);
    assert forall c | c in mapped :: exists i | 0 <= i < |files| :: c == ToFileChange(files[i]);
    assert forall i | 0 <= i < |files| :: mapped[i] in mapped;
    Filter(mapped, extensions)
  }

  /** The mapping filter is determined by what it does to one file: it keeps
      the mapped record exactly when the filename matches. */
  lemma MapFilterSingle(f: PlatformFile, extensions: seq<string>)
    ensures MapFilter([f], extensions) == if Matches(f.filename, extensions) then [ToFileChange(f)] else []
  {
    assert ToFileChanges([f]) == [ToFileChange(f)];
  }

  /** The mapping filter commutes with concatenation: files keep their listing order. */
  lemma MapFilterAppend(xs: seq<PlatformFile>, ys: seq<PlatformFile>, extensions: seq<string>)
    ensures MapFilter(xs + ys, extensions) == MapFilter(xs, extensions) + MapFilter(ys, extensions)
  {
    assert ToFileChanges(xs + ys) == ToFileChanges(xs) + ToFileChanges(ys);
    FilterAppend(ToFileChanges(xs), ToFileChanges(ys), extensions);
  }
}
