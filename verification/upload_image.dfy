/** The image upload script: from its one argument it derives the image's local path, its extension
    and the public id it is uploaded under, checks the file exists and uploads it. */
module UploadImage {
  import opened Wrappers
  import opened Strings

  /** The fields of `s` between occurrences of `c`, all kept: n separators give n + 1 fields. */
  function Fields(s: string, c: char): (r: seq<string>)
    ensures |r| >= 1
    decreases |s|
  {
    if s == [] then [""]
    else
      var init := Fields(s[..|s| - 1], c);
      if s[|s| - 1] == c then init + [""]
      else init[..|init| - 1] + [init[|init| - 1] + [s[|s| - 1]]]
  }

  /** Removes the empty fields at the end of the list. */
  function DropTrailingEmpty(xs: seq<string>): (r: seq<string>)
    ensures r == [] || r[|r| - 1] != ""
  {
    if xs == [] then []
    else if xs[|xs| - 1] == "" then DropTrailingEmpty(xs[..|xs| - 1])
    else xs
  }

  /** Ruby's `String#split` on a one-character separator other than a space:
      the fields, with trailing empty fields removed. */
  function Split(s: string, c: char): seq<string> {
    DropTrailingEmpty(Fields(s, c))
  }

  /** `"." + name.split('.')[-1]`: the last non-empty dot-separated segment with a dot in front.
      None when the split is empty (the script then fails adding `nil` to a string). */
  function Extension(name: string): Option<string> {
    var segments := Split(name, '.');
    if segments == [] then None else Some("." + segments[|segments| - 1])
  }

  /** `s` without the characters `c` at its end. */
  function StripTrailing(s: string, c: char): (r: string)
    ensures |r| <= |s| && r == s[..|r|]
    ensures r == [] || r[|r| - 1] != c
    ensures forall i :: |r| <= i < |s| ==> s[i] == c
  {
    if s != [] && s[|s| - 1] == c then StripTrailing(s[..|s| - 1], c) else s
  }

  /** The part of `s` after its last `c`; all of `s` when there is none. */
  function AfterLast(s: string, c: char): (r: string)
    ensures c !in r
    ensures |r| <= |s| && r == s[|s| - |r|..]
    ensures |r| < |s| ==> s[|s| - |r| - 1] == c
  {
    if s == [] then []
    else if s[|s| - 1] == c then []
    else AfterLast(s[..|s| - 1], c) + [s[|s| - 1]]
  }

  /** Ruby's `File.basename(path)`: the last component after trailing slashes are removed;
      "/" for a path of slashes only. */
  function Basename(path: string): (r: string)
    ensures '/' !in path ==> r == path
    ensures r == [] <==> path == []
    ensures '/' !in r || r == "/"
  {
    var core := StripTrailing(path, '/');
    if path == [] then []
    else if core == [] then "/"
    else AfterLast(core, '/')
  }

  /** `s` consists of dots only. */
  predicate AllDots(s: string) {
    forall i :: 0 <= i < |s| ==> s[i] == '.'
  }

  /** `File.basename(name, ".*")`: `b` without its extension as Ruby sees it, the part from the last
      dot on, where the dots that lead the name do not count; all of `b` when there is no such dot. */
  function StemOf(b: string): (r: string)
    ensures |r| <= |b| && r == b[..|r|]
  {
    var tail := AfterLast(b, '.');
    if |tail| == |b| then b
    else
      var r := b[..|b| - |tail| - 1];
      if AllDots(r) then b else r
  }

  /** Ruby's `File.basename(path, ext)`: the basename with `ext` removed when it is a proper suffix;
      the suffix `.*` removes whatever extension the basename has. */
  function BasenameWithout(path: string, ext: string): (r: string)
    ensures ext != ".*" && |ext| < |Basename(path)| && EndsWith(Basename(path), ext) ==> r + ext == Basename(path)
    ensures ext != ".*" && !(|ext| < |Basename(path)| && EndsWith(Basename(path), ext)) ==> r == Basename(path)
    ensures ext == ".*" ==> r == StemOf(Basename(path))
  {
    var b := Basename(path);
    if ext == ".*" then StemOf(b)
    else if |ext| < |b| && EndsWith(b, ext) then
      assert b == b[..|b| - |ext|] + ext;
      b[..|b| - |ext|]
    else b
  }

  /** Where the script looks for the image. */
  function ImagePath(name: string): string {
    "src/img/" + name
  }

  /** The public id the image is uploaded under, given its extension: a prefix of the file's own name,
      without the directories. */
  function PublicId(name: string, extension: string): (r: string)
    ensures StartsWith(Basename(name), r)
    ensures '/' !in r || r == "/"
  {
    BasenameWithout(name, extension)
  }

  /** What the script does that the outside world sees. */
  datatype Action =
    | Print(text: string)
    | Upload(path: string, publicId: string)

  /** How the script ends. */
  datatype Exit =
    | Done
    | Aborted(message: string)    // `abort`: the message on standard error, exit status 1
    | Crashed(reason: string)     // an uncaught Ruby exception

  datatype Run = Run(trace: seq<Action>, exit: Exit)

  /** One run. `arg` is the first command-line argument, `files` the paths that exist and
      `uploadError` the message of the upload service's exception, if it raises one. */
  function UploadScript(arg: Option<string>, files: set<string>, uploadError: Option<string>): (run: Run)
    ensures run.exit.Done? ==> uploadError.None?
    ensures (exists i :: 0 <= i < |run.trace| && run.trace[i].Upload?) ==> arg.Some? && ImagePath(arg.value) in files
  {
    match arg
    case None => Run([], Crashed("undefined method 'split' for nil"))
    case Some(name) =>
      match Extension(name)
      case None => Run([], Crashed("no implicit conversion of nil into String"))
      case Some(extension) => Send(name, extension, files, uploadError)
  }

  /** The line printed before the upload. */
  function UploadingLine(path: string, id: string): string {
    "Uploading " + path + " with public_id " + id + "\n"
  }

  /** The line printed after a successful upload, misspelt as in the script. */
  const SuccessLine: string := "Sucess!\n"

  /** The script once the name's extension is known: the existence check and the upload. */
  function Send(name: string, extension: string, files: set<string>, uploadError: Option<string>): (run: Run)
    ensures run.exit.Done? ==> uploadError.None?
    ensures (exists i :: 0 <= i < |run.trace| && run.trace[i].Upload?) ==> ImagePath(name) in files
  {
    var path := ImagePath(name);
    var id := PublicId(name, extension);
    if path !in files then Run([], Aborted(path + " does not exist."))
    else
      var started := [Print(UploadingLine(path, id)), Upload(path, id)];
      match uploadError
      case Some(message) => Run(started, Aborted("Cloudinary Error: " + message))
      case None => Run(started + [Print(SuccessLine)], Done)
  }

  /** The extension by an independent route: strip the trailing dots, then take what follows the last
      dot. */
  function ReferenceExtension(name: string): Option<string> {
    var core := StripTrailing(name, '.');
    if core == [] then None else Some("." + AfterLast(core, '.'))
  }
}

/** Properties of the name derivation and of the script's outcomes. */
module UploadImageProofs {
  import opened Wrappers
  import opened Strings
  import opened UploadImage

  /** The last field is what follows the last separator. */
  lemma {:induction false} LastField(s: string, c: char)
    ensures Fields(s, c)[|Fields(s, c)| - 1] == AfterLast(s, c)
    decreases |s|
  {
    if s != [] {
      LastField(s[..|s| - 1], c);
    }
  }

  /** A trailing separator only adds an empty field, which the split drops. */
  lemma {:induction false} SplitIgnoresTrailing(s: string, c: char)
    ensures Split(s, c) == Split(StripTrailing(s, c), c)
    decreases |s|
  {
    if s != [] && s[|s| - 1] == c {
      var init := Fields(s[..|s| - 1], c);
      assert Fields(s, c) == init + [""];
      assert (init + [""])[..|init|] == init;
      SplitIgnoresTrailing(s[..|s| - 1], c);
    }
  }

  /** The split-based extension equals the reference one on every name. */
  lemma ExtensionMatchesReference(name: string)
    ensures Extension(name) == ReferenceExtension(name)
  {
    var core := StripTrailing(name, '.');
    SplitIgnoresTrailing(name, '.');
    if core != [] {
      LastField(core, '.');
      assert Fields(core, '.')[|Fields(core, '.')| - 1] != "";
      assert Split(core, '.') == Fields(core, '.');
    } else {
      assert Fields(core, '.') == [""];
    }
  }

  /** The extension is a dot followed by a non-empty, dot-free segment; there is none exactly when the
      name consists of dots only (or is empty). */
  lemma ExtensionShape(name: string)
    ensures Extension(name).None? <==> AllDots(name)
    ensures Extension(name).Some? ==>
      var e := Extension(name).value;
      |e| >= 2 && e[0] == '.' && '.' !in e[1..]
  {
    ExtensionMatchesReference(name);
    var core := StripTrailing(name, '.');
    if core != [] {
      var seg := AfterLast(core, '.');
      assert seg != [] && seg[|seg| - 1] == core[|core| - 1];
      assert ("." + seg)[1..] == seg;
      assert name[|core| - 1] != '.';
    }
  }

  /** The segment after the last separator of `p + [c] + seg`, when `seg` has no separator. */
  lemma {:induction false} AfterLastAppend(p: string, c: char, seg: string)
    requires c !in seg
    ensures AfterLast(p + [c] + seg, c) == seg
    decreases |seg|
  {
    if seg == [] {
      assert (p + [c] + seg)[|p + [c] + seg| - 1] == c;
    } else {
      var s := p + [c] + seg;
      assert s[..|s| - 1] == p + [c] + seg[..|seg| - 1];
      AfterLastAppend(p, c, seg[..|seg| - 1]);
    }
  }

  /** What the wildcard removes: a dot that is not among the dots leading the name, and everything
      after it, which holds no further dot. When nothing is removed, every dot of `b` leads it. */
  lemma StemOfShape(b: string)
    ensures StemOf(b) != b ==>
      var r := StemOf(b);
      b[|r|] == '.' && '.' !in b[|r| + 1..] && !AllDots(r)
    ensures StemOf(b) == b ==> forall i, j :: 0 <= j < i < |b| && b[i] == '.' ==> b[j] == '.'
  {
    var tail := AfterLast(b, '.');
    if |tail| == |b| {
      assert tail == b;
      assert forall i :: 0 <= i < |b| ==> b[i] != '.';
    } else {
      var r := b[..|b| - |tail| - 1];
      assert b == r + "." + tail;
      assert b[|r| + 1..] == tail;
      assert forall k :: |r| < k < |b| ==> b[k] != '.' by {
        forall k | |r| < k < |b|
          ensures b[k] != '.'
        {
          assert b[k] == tail[k - |r| - 1];
        }
      }
      if AllDots(r) {
        assert StemOf(b) == b;
        forall i, j | 0 <= j < i < |b| && b[i] == '.'
          ensures b[j] == '.'
        {
          assert j < |r|;
          assert b[j] == r[j];
        }
      } else {
        assert StemOf(b) == r;
      }
    }
  }

  /** The last component of `dir/base` is `base`. */
  lemma BasenameOfPath(dir: string, base: string)
    requires base != "" && '/' !in base
    ensures Basename(dir + "/" + base) == base
  {
    var path := dir + "/" + base;
    assert path == dir + ['/'] + base;
    assert path[|path| - 1] == base[|base| - 1];
    assert StripTrailing(path, '/') == path;
    AfterLastAppend(dir, '/', base);
  }

  /** The extension of any path whose name ends in `.seg` is `.seg`. */
  lemma ExtensionOfSegment(prefix: string, seg: string)
    requires seg != "" && '.' !in seg
    ensures Extension(prefix + "." + seg) == Some("." + seg)
  {
    var name := prefix + "." + seg;
    ExtensionMatchesReference(name);
    assert name[|name| - 1] == seg[|seg| - 1];
    assert StripTrailing(name, '.') == name;
    assert name == prefix + ['.'] + seg;
    AfterLastAppend(prefix, '.', seg);
  }

  /** An extension other than the wildcard that ends the file name is removed from it. */
  lemma PublicIdStripsExtension(path: string, stem: string, ext: string)
    requires stem != "" && ext != ".*"
    requires Basename(path) == stem + ext
    ensures PublicId(path, ext) == stem
  {
    var b := stem + ext;
    assert b[|b| - |ext|..] == ext;
    var r := BasenameWithout(path, ext);
    assert r + ext == b;
    assert r == (r + ext)[..|r|];
  }

  /** The wildcard `.*` on a file name `stem.*` removes `.*`, unless the stem is dots only: then the
      dot before `*` leads the name and nothing is removed. */
  lemma PublicIdWildcard(path: string, stem: string)
    requires Basename(path) == stem + ".*"
    ensures !AllDots(stem) ==> PublicId(path, ".*") == stem
    ensures AllDots(stem) ==> PublicId(path, ".*") == stem + ".*"
  {
    StemOfWildcardName(stem);
  }

  /** `..*` keeps its whole name: both its dots lead it, so the wildcard finds no extension. */
  lemma LeadingDotsWildcard()
    ensures PublicId("..*", ".*") == "..*"
  {
    assert "." + ".*" == "..*";
    PublicIdWildcard("..*", ".");
  }

  /** The stem `File.basename` keeps of a name `stem.*` under the wildcard. */
  lemma StemOfWildcardName(stem: string)
    ensures !AllDots(stem) ==> StemOf(stem + ".*") == stem
    ensures AllDots(stem) ==> StemOf(stem + ".*") == stem + ".*"
  {
    var b := stem + ".*";
    assert b == stem + ['.'] + "*";
    AfterLastAppend(stem, '.', "*");
    var tail := AfterLast(b, '.');
    assert tail == "*";
    var r := b[..|b| - |tail| - 1];
    assert r == stem;
  }

  /** The public id of a path whose file name is `stem.seg`, for the extension `.seg`: the stem, unless
      the extension is the wildcard `.*` and the stem is dots only, in which case no extension is seen. */
  lemma PublicIdOfFile(path: string, stem: string, seg: string)
    requires stem != "" && seg != "" && '.' !in seg
    requires Basename(path) == stem + "." + seg
    ensures seg != "*" || !AllDots(stem) ==> PublicId(path, "." + seg) == stem
    ensures seg == "*" && AllDots(stem) ==> PublicId(path, "." + seg) == stem + "." + seg
  {
    assert stem + "." + seg == stem + ("." + seg);
    if seg == "*" {
      PublicIdWildcard(path, stem);
    } else {
      assert ("." + seg)[1..] == seg;
      PublicIdStripsExtension(path, stem, "." + seg);
    }
  }

  /** `stem.seg` splits into the extension `.seg` and the public id `stem`: "cat.png" gives ".png" and
      "cat", "a.b.png" gives ".png" and "a.b". The extension `.*` is the wildcard of `File.basename`,
      which does not count the dots leading a name: "cat.*" gives "cat", but "..*" keeps "..*". */
  lemma NameRoundTrip(stem: string, seg: string)
    requires stem != "" && seg != ""
    requires '.' !in seg && '/' !in stem && '/' !in seg
    ensures Extension(stem + "." + seg) == Some("." + seg)
    ensures seg != "*" || !AllDots(stem) ==> PublicId(stem + "." + seg, "." + seg) == stem
    ensures seg == "*" && AllDots(stem) ==> PublicId(stem + "." + seg, "." + seg) == stem + "." + seg
  {
    ExtensionOfSegment(stem, seg);
    var name := stem + "." + seg;
    assert '/' !in name by {
      assert forall i :: 0 <= i < |name| ==> name[i] == (if i < |stem| then stem[i] else if i == |stem| then '.' else seg[i - |stem| - 1]);
    }
    PublicIdOfFile(name, stem, seg);
  }

  /** The directories of the argument are not part of the public id: "2020/cat.png" gives ".png"
      and "cat". */
  lemma NameInDirectory(dir: string, stem: string, seg: string)
    requires stem != "" && seg != ""
    requires '.' !in seg && '/' !in stem && '/' !in seg
    ensures Extension(dir + "/" + stem + "." + seg) == Some("." + seg)
    ensures seg != "*" || !AllDots(stem) ==> PublicId(dir + "/" + stem + "." + seg, "." + seg) == stem
    ensures seg == "*" && AllDots(stem) ==> PublicId(dir + "/" + stem + "." + seg, "." + seg) == stem + "." + seg
  {
    ExtensionOfSegment(dir + "/" + stem, seg);
    var base := stem + "." + seg;
    assert dir + "/" + stem + "." + seg == dir + "/" + base;
    assert '/' !in base by {
      assert forall i :: 0 <= i < |base| ==> base[i] == (if i < |stem| then stem[i] else if i == |stem| then '.' else seg[i - |stem| - 1]);
    }
    BasenameOfPath(dir, base);
    PublicIdOfFile(dir + "/" + base, stem, seg);
  }

  /** A name without a dot is its own public id: its extension is the whole name with a dot in front,
      which is never a suffix of it. */
  lemma NoDotName(name: string)
    requires name != "" && '.' !in name && '/' !in name
    ensures Extension(name) == Some("." + name)
    ensures PublicId(name, "." + name) == name
  {
    assert Extension(name) == Some("." + name) by {
      ExtensionMatchesReference(name);
      assert StripTrailing(name, '.') == name;
      assert AfterLast(name, '.') == name;
    }
    assert Basename(name) == name;
    if "." + name == ".*" {
      assert AfterLast(name, '.') == name;
      assert StemOf(name) == name;
    } else {
      assert |"." + name| > |name|;
    }
  }

  /** A name ending in a dot takes its extension from the segment before the dot, and keeps its whole
      name as public id: "foo." gives ".foo" and "foo.". The one exception is "*.", whose extension
      `.*` is the wildcard and gives the public id "*". */
  lemma TrailingDotName(stem: string)
    requires stem != "" && '.' !in stem && '/' !in stem
    ensures Extension(stem + ".") == Some("." + stem)
    ensures PublicId(stem + ".", "." + stem) == if stem == "*" then stem else stem + "."
  {
    var name := stem + ".";
    assert Extension(name) == Some("." + stem) by {
      ExtensionMatchesReference(name);
      assert name[..|name| - 1] == stem;
      assert StripTrailing(name, '.') == stem;
      assert AfterLast(stem, '.') == stem;
    }
    assert Basename(name) == name;
    if stem == "*" {
      StarDotStem();
    } else {
      assert "." + stem != ".*" by {
        assert ("." + stem)[1..] == stem;
      }
    }
  }

  /** Under the wildcard, "*." loses its final dot. */
  lemma StarDotStem()
    ensures StemOf("*.") == "*"
  {
    assert AfterLast("*.", '.') == "";
    var r := "*."[..1];
    assert r == "*" && r[0] != '.';
  }

  /** The image is looked for under `src/img/`. */
  lemma ImagePathShape(name: string)
    ensures StartsWith(ImagePath(name), "src/img/") && ImagePath(name)[8..] == name
  {
  }

  /** When the image does not exist the script aborts before uploading anything. */
  lemma MissingImageAborts(name: string, files: set<string>, uploadError: Option<string>)
    requires Extension(name).Some? && ImagePath(name) !in files
    ensures UploadScript(Some(name), files, uploadError) == Run([], Aborted("src/img/" + name + " does not exist."))
  {
  }

  /** An upload error aborts with "Cloudinary Error: <message>" after exactly one upload attempt; the
      success message is not printed. */
  lemma UploadErrorAborts(name: string, files: set<string>, message: string)
    requires Extension(name).Some? && ImagePath(name) in files
    ensures var run := UploadScript(Some(name), files, Some(message));
      run.exit == Aborted("Cloudinary Error: " + message)
      && |run.trace| == 2
      && run.trace[1] == Upload(ImagePath(name), PublicId(name, Extension(name).value))
      && Print("Sucess!\n") !in run.trace
  {
  }

  /** A successful upload announces the image and its public id, sends it under that id, then reports
      success. */
  lemma UploadSucceeds(name: string, files: set<string>)
    requires Extension(name).Some? && ImagePath(name) in files
    ensures var path := ImagePath(name);
      var id := PublicId(name, Extension(name).value);
      UploadScript(Some(name), files, None) == Run([Print(UploadingLine(path, id)), Upload(path, id), Print(SuccessLine)], Done)
  {
    var ext := Extension(name).value;
    assert UploadScript(Some(name), files, None) == Send(name, ext, files, None);
    SendSucceeds(name, ext, files);
  }

  /** Once the extension is known, a successful upload announces, sends and reports. */
  lemma SendSucceeds(name: string, ext: string, files: set<string>)
    requires ImagePath(name) in files
    ensures var path := ImagePath(name);
      var id := PublicId(name, ext);
      Send(name, ext, files, None) == Run([Print(UploadingLine(path, id)), Upload(path, id), Print(SuccessLine)], Done)
  {
    var path := ImagePath(name);
    var id := PublicId(name, ext);
    var announce := Print(UploadingLine(path, id));
    assert [announce, Upload(path, id)] + [Print(SuccessLine)] == [announce, Upload(path, id), Print(SuccessLine)];
  }

  /** Without an argument, or with one made of dots only, the script fails before touching anything. */
  lemma BadArgumentCrashes(arg: Option<string>, files: set<string>, uploadError: Option<string>)
    requires arg.None? || AllDots(arg.value)
    ensures UploadScript(arg, files, uploadError).exit.Crashed?
    ensures UploadScript(arg, files, uploadError).trace == []
  {
    if arg.Some? {
      ExtensionShape(arg.value);
    }
  }
}
