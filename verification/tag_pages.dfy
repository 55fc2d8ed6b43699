/** The tag-page directory and the front-matter of a generated tag page,
    shared by both versions of the tag hook. */
module TagPages {
  import opened Strings

  /** The entries of one tag-page directory: file name to file content.
      Entries are plain names; sub-directories are not modelled. */
  type Dir = map<string, string>

  /** Every entry name is a plain file name (directory entries never contain '/'). */
  predicate ValidDir(dir: Dir) {
    forall f :: f in dir ==> '/' !in f
  }

  /** The file that holds the page of `tag`: `<tag>.md`. */
  function PageFile(tag: string): (f: string)
    ensures EndsWith(f, ".md") && Chomp(f, ".md") == tag
  {
    ChompAppend(tag, ".md");
    tag + ".md"
  }

  /** The front-matter block a generated page consists of. */
  function FrontMatter(tag: string, permalink: string): string {
    "---\nlayout: tagpage\ntag: " + tag + "\npermalink: " + permalink + "\n---\n"
  }

  /** A tag name the hooks can write a page for: one that names a file in the directory itself and
      holds no NUL character, which no file name can contain. */
  predicate Writable(tag: string) {
    '/' !in tag && '\0' !in tag
  }

  /** The file of a writable tag is a valid entry name. */
  lemma PageFileIsEntry(tag: string)
    requires Writable(tag)
    ensures '/' !in PageFile(tag)
  {
  }

  /** Distinct tags have distinct page files. */
  lemma PageFileInjective(a: string, b: string)
    requires PageFile(a) == PageFile(b)
    ensures a == b
  {
  }
}
