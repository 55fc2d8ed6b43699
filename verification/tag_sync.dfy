/** The `:post_read` hook that reconciles the tag pages in `src/tags/` with the tags used by posts:
    it creates a page for every tag that has none and deletes every page whose tag is no longer used. */
module TagSync {
  import opened Wrappers
  import opened Strings
  import opened TagPages

  /** The hook lists every entry matching the unanchored regex `\.md`. */
  predicate IsPageEntry(f: string) {
    Contains(f, ".md")
  }

  /** The tag an entry stands for: the entry with one trailing ".md" removed. */
  function PageName(f: string): string {
    Chomp(f, ".md")
  }

  /** The set of tags that the directory has pages for, as the hook computes it. */
  function PageNames(dir: Dir): set<string> {
    set f | f in dir && IsPageEntry(f) :: PageName(f)
  }

  /** The listed names are those whose page file is present, and every entry that contains ".md"
      without ending in it, taken whole as a name. */
  lemma PageNamesMembers(dir: Dir)
    ensures forall t :: t in PageNames(dir) <==> PageFile(t) in dir || (t in dir && IsPageEntry(t) && !EndsWith(t, ".md"))
  {
    forall t | PageFile(t) in dir
      ensures t in PageNames(dir)
    {
      ContainsSuffix(t, ".md");
      assert IsPageEntry(PageFile(t)) && PageName(PageFile(t)) == t;
    }
    forall t | t in PageNames(dir)
      ensures PageFile(t) in dir || (t in dir && IsPageEntry(t) && !EndsWith(t, ".md"))
    {
      var f :| f in dir && IsPageEntry(f) && PageName(f) == t;
      if EndsWith(f, ".md") {
        assert f == PageFile(t);
      }
    }
  }

  /** Every entry that the hook takes for a page really is a page file `<name>.md`.
      An entry such as `x.md.bak` breaks this. */
  predicate Tidy(dir: Dir) {
    forall f :: f in dir && IsPageEntry(f) ==> EndsWith(f, ".md")
  }

  /** The content of a page created by this hook; the permalink ends in a slash. */
  function Template(tag: string): string {
    FrontMatter(tag, "/tags/" + tag + "/")
  }

  /** Why the hook stops with a Ruby exception. */
  datatype SyncError =
    | UnwritablePages(tags: set<string>)   // File.open fails: the tag names a path below the directory
    | MissingPages(pages: set<string>)     // File.delete fails: `<page>.md` does not exist

  /** Tags that have no page. In a tidy directory these are exactly the tags whose page file is
      absent. */
  function ToCreate(tags: set<string>, dir: Dir): (r: set<string>)
    ensures forall t :: t in r ==> t in tags && PageFile(t) !in dir
    ensures Tidy(dir) ==> forall t :: t in tags && PageFile(t) !in dir ==> t in r
  {
    PageNamesMembers(dir);
    tags - PageNames(dir)
  }

  /** Pages that have no tag. In a tidy directory these are exactly the names of the page files
      present whose tag is not in use. */
  function ToDelete(tags: set<string>, dir: Dir): (r: set<string>)
    ensures forall p :: p in r ==> p !in tags
    ensures forall p :: PageFile(p) in dir && p !in tags ==> p in r
    ensures Tidy(dir) ==> forall p :: p in r ==> PageFile(p) in dir
  {
    PageNamesMembers(dir);
    PageNames(dir) - tags
  }

  /** The new pages, one per tag to create. */
  function NewPages(create: set<string>): (m: Dir)
    ensures forall f :: f in m <==> EndsWith(f, ".md") && PageName(f) in create
    ensures forall t :: t in create ==> PageFile(t) in m && m[PageFile(t)] == Template(t)
  {
    var m := map t | t in create :: PageFile(t) := Template(t);
    forall f | EndsWith(f, ".md") && PageName(f) in create
      ensures f in m
    {
      assert f == PageFile(PageName(f));
    }
    m
  }

  /** The file `f` is the page of one of the tags in `delete`. */
  predicate Doomed(f: string, delete: set<string>) {
    EndsWith(f, ".md") && PageName(f) in delete
  }

  /** The hook: creates the missing pages, then deletes the orphaned ones.
      A failed write or delete aborts it; the partial state left behind is not modelled. */
  function Sync(tags: set<string>, dir: Dir): (r: Result<Dir, SyncError>)
    ensures r.Failure? && r.error.UnwritablePages? ==>
      r.error.tags != {} && forall t :: t in r.error.tags ==> t in tags && t !in PageNames(dir) && !Writable(t)
    ensures r.Failure? && r.error.MissingPages? ==>
      r.error.pages != {} && forall p :: p in r.error.pages ==> p in PageNames(dir) && p !in tags && PageFile(p) !in dir
  {
    var create := ToCreate(tags, dir);
    var delete := ToDelete(tags, dir);
    var unwritable := set t | t in create && !Writable(t);
    var missing := set p | p in delete && PageFile(p) !in dir;
    if unwritable != {} then Failure(UnwritablePages(unwritable))
    else if missing != {} then Failure(MissingPages(missing))
    else Success(Reconcile(dir, create, delete))
  }

  /** The directory after creating the pages of `create` and deleting the pages of `delete`. */
  function Reconcile(dir: Dir, create: set<string>, delete: set<string>): (r: Dir)
    ensures forall f :: f in r <==> (f in dir && !Doomed(f, delete)) || (EndsWith(f, ".md") && PageName(f) in create)
    ensures forall f :: f in r && !(EndsWith(f, ".md") && PageName(f) in create) ==> r[f] == dir[f]
    ensures forall t :: t in create ==> PageFile(t) in r && r[PageFile(t)] == Template(t)
  {
    (map f | f in dir && !Doomed(f, delete) :: dir[f]) + NewPages(create)
  }
}

/** Properties of the reconciling hook. */
module TagSyncProofs {
  import opened Wrappers
  import opened Strings
  import opened TagPages
  import opened TagSync

  /** A page file is listed under its own tag. */
  lemma PageFileListed(dir: Dir, t: string)
    requires PageFile(t) in dir
    ensures t in PageNames(dir)
  {
    ContainsSuffix(t, ".md");
    assert IsPageEntry(PageFile(t)) && PageName(PageFile(t)) == t;
  }

  /** In a tidy directory the page of every listed name is present. */
  lemma TidyPagePresent(dir: Dir, p: string)
    requires Tidy(dir) && p in PageNames(dir)
    ensures PageFile(p) in dir
  {
    var f :| f in dir && IsPageEntry(f) && PageName(f) == p;
    assert f == PageFile(p);
  }

  /** The hook succeeds on a tidy directory when every tag without a page is writable. */
  lemma SyncSucceeds(tags: set<string>, dir: Dir)
    requires Tidy(dir)
    requires forall t :: t in ToCreate(tags, dir) ==> Writable(t)
    ensures Sync(tags, dir).Success?
  {
    forall p | p in ToDelete(tags, dir)
      ensures PageFile(p) in dir
    {
      TidyPagePresent(dir, p);
    }
  }

  /** The hook fails on an entry that contains ".md" without ending in it, when that name is no tag
      and no `<entry>.md` exists: the hook tries to delete a file that is not there. */
  lemma StrayEntryFails(tags: set<string>, dir: Dir, f: string)
    requires f in dir && IsPageEntry(f) && !EndsWith(f, ".md")
    requires f !in tags && f + ".md" !in dir
    requires forall t :: t in ToCreate(tags, dir) ==> Writable(t)
    ensures Sync(tags, dir).Failure?
    ensures Sync(tags, dir).error == MissingPages(Sync(tags, dir).error.pages)
    ensures f in Sync(tags, dir).error.pages
  {
    assert PageName(f) == f;
    assert f in PageNames(dir);
    assert f in ToDelete(tags, dir);
    assert (set t | t in ToCreate(tags, dir) && !Writable(t)) == {};
    assert PageFile(f) !in dir;
    var missing := set p | p in ToDelete(tags, dir) && PageFile(p) !in dir;
    assert f in missing;
    assert Sync(tags, dir) == Failure(MissingPages(missing));
  }

  /** What a successful run means: every tag without a page is writable, every orphaned page is
      present, and the directory is reconciled. */
  lemma SyncSuccess(tags: set<string>, dir: Dir)
    requires Sync(tags, dir).Success?
    ensures forall t :: t in ToCreate(tags, dir) ==> Writable(t)
    ensures forall p :: p in ToDelete(tags, dir) ==> PageFile(p) in dir
    ensures Sync(tags, dir).value == Reconcile(dir, ToCreate(tags, dir), ToDelete(tags, dir))
  {
    var unwritable := set t | t in ToCreate(tags, dir) && !Writable(t);
    var missing := set p | p in ToDelete(tags, dir) && PageFile(p) !in dir;
    if unwritable != {} {
      assert false;
    } else if missing != {} {
      assert false;
    } else {
      assert forall t :: t in ToCreate(tags, dir) ==> t !in unwritable;
      assert forall p :: p in ToDelete(tags, dir) ==> p !in missing;
    }
  }

  /** A tag that has no page has no page file in the directory. */
  lemma CreatedAreNew(tags: set<string>, dir: Dir, t: string)
    requires t in ToCreate(tags, dir)
    ensures PageFile(t) !in dir
  {
    if PageFile(t) in dir {
      PageFileListed(dir, t);
    }
  }

  /** The created files are exactly the pages of `tags - pages`, the deleted files exactly the pages of
      `pages - tags`, and no name is both created and deleted. */
  lemma SyncChanges(tags: set<string>, dir: Dir)
    requires Sync(tags, dir).Success?
    ensures Sync(tags, dir).value.Keys - dir.Keys == set t | t in tags - PageNames(dir) :: t + ".md"
    ensures dir.Keys - Sync(tags, dir).value.Keys == set p | p in PageNames(dir) - tags :: p + ".md"
    ensures ToCreate(tags, dir) !! ToDelete(tags, dir)
  {
    SyncSuccess(tags, dir);
    var r := Sync(tags, dir).value;
    var create := ToCreate(tags, dir);
    var delete := ToDelete(tags, dir);
    forall f | f in r.Keys - dir.Keys
      ensures f in set t | t in tags - PageNames(dir) :: t + ".md"
    {
      assert f == PageFile(PageName(f));
    }
    forall t | t in tags - PageNames(dir)
      ensures t + ".md" in r.Keys - dir.Keys
    {
      CreatedAreNew(tags, dir, t);
    }
    forall f | f in dir.Keys - r.Keys
      ensures f in set p | p in PageNames(dir) - tags :: p + ".md"
    {
      assert Doomed(f, delete);
      assert f == PageFile(PageName(f));
    }
    forall p | p in PageNames(dir) - tags
      ensures p + ".md" in dir.Keys - r.Keys
    {
      assert PageFile(p) in dir;
      assert Doomed(PageFile(p), delete);
    }
  }

  /** Pages of tags that are still in use and files that do not end in ".md" keep their content. */
  lemma SyncKeepsOthers(tags: set<string>, dir: Dir)
    requires Sync(tags, dir).Success?
    ensures forall f :: f in dir && (!EndsWith(f, ".md") || PageName(f) in tags) ==>
      f in Sync(tags, dir).value && Sync(tags, dir).value[f] == dir[f]
  {
    SyncSuccess(tags, dir);
    var r := Sync(tags, dir).value;
    forall f | f in dir && (!EndsWith(f, ".md") || PageName(f) in tags)
      ensures f in r && r[f] == dir[f]
    {
      assert EndsWith(f, ".md") ==> f == PageFile(PageName(f));
    }
  }

  /** A created page `<tag>.md` holds exactly the fixed front-matter, with a slash-terminated permalink. */
  lemma SyncTemplate(tags: set<string>, dir: Dir, t: string)
    requires Sync(tags, dir).Success?
    requires t in tags && t !in PageNames(dir)
    ensures t + ".md" in Sync(tags, dir).value
    ensures Sync(tags, dir).value[t + ".md"] ==
      "---\nlayout: tagpage\ntag: " + t + "\npermalink: /tags/" + t + "/\n---\n"
  {
    SyncSuccess(tags, dir);
    assert t in ToCreate(tags, dir);
    assert Sync(tags, dir).value[PageFile(t)] == Template(t);
    TemplateText(t);
  }

  /** The template written out. */
  lemma TemplateText(t: string)
    ensures Template(t) == "---\nlayout: tagpage\ntag: " + t + "\npermalink: /tags/" + t + "/\n---\n"
  {
  }

  /** After a successful run on a tidy directory the pages are exactly the tags. */
  lemma SyncMatchesTags(tags: set<string>, dir: Dir)
    requires Tidy(dir)
    requires Sync(tags, dir).Success?
    ensures PageNames(Sync(tags, dir).value) == tags
    ensures Tidy(Sync(tags, dir).value)
  {
    SyncSuccess(tags, dir);
    var r := Sync(tags, dir).value;
    var create := ToCreate(tags, dir);
    var delete := ToDelete(tags, dir);
    forall f | f in r && IsPageEntry(f)
      ensures PageName(f) in tags && EndsWith(f, ".md")
    {
      if !(EndsWith(f, ".md") && PageName(f) in create) {
        assert f in dir && !Doomed(f, delete);
        assert PageName(f) in PageNames(dir);
      }
    }
    forall t | t in tags
      ensures t in PageNames(r)
    {
      if t in PageNames(dir) {
        TidyPagePresent(dir, t);
        assert !Doomed(PageFile(t), delete);
      }
      PageFileListed(r, t);
    }
  }

  /** A directory whose pages are exactly the tags is left as it is. */
  lemma SyncInSync(tags: set<string>, dir: Dir)
    requires PageNames(dir) == tags
    ensures Sync(tags, dir) == Success(dir)
  {
    assert ToCreate(tags, dir) == {} && ToDelete(tags, dir) == {};
    var same := Reconcile(dir, {}, {});
    assert same == dir;
    assert (set t | t in ToCreate(tags, dir) && !Writable(t)) == {};
    assert (set p | p in ToDelete(tags, dir) && PageFile(p) !in dir) == {};
  }

  /** A second run with the same tags after a successful first run on a tidy directory
      creates and deletes nothing. */
  lemma SyncIdempotent(tags: set<string>, dir: Dir)
    requires Tidy(dir)
    requires Sync(tags, dir).Success?
    ensures Sync(tags, Sync(tags, dir).value) == Sync(tags, dir)
  {
    SyncMatchesTags(tags, dir);
    SyncInSync(tags, Sync(tags, dir).value);
  }

  /** A successful run keeps every entry a plain file name. */
  lemma SyncKeepsValid(tags: set<string>, dir: Dir)
    requires ValidDir(dir)
    requires Sync(tags, dir).Success?
    ensures ValidDir(Sync(tags, dir).value)
  {
    SyncSuccess(tags, dir);
    forall f | f in Sync(tags, dir).value && f !in dir
      ensures '/' !in f
    {
      assert f == PageFile(PageName(f));
      PageFileIsEntry(PageName(f));
    }
  }

  /** Both `a.mdx` and `a.mdx.md` stand for the page `a.mdx`. */
  lemma UntidyPages()
    ensures PageNames(map["a.mdx" := "", "a.mdx.md" := ""]) == {"a.mdx"}
    ensures PageNames(map["a.mdx" := ""]) == {"a.mdx"}
  {
    var dir := map["a.mdx" := "", "a.mdx.md" := ""];
    assert "a.mdx.md" == PageFile("a.mdx");
    assert OccursAt("a.mdx", ".md", 1);
    assert !EndsWith("a.mdx", ".md");
    assert PageName("a.mdx") == "a.mdx";
    forall n | n in PageNames(dir)
      ensures n == "a.mdx"
    {
      var f :| f in dir && IsPageEntry(f) && PageName(f) == n;
    }
    PageFileListed(dir, "a.mdx");
    var single := map["a.mdx" := ""];
    forall n | n in PageNames(single)
      ensures n == "a.mdx"
    {
    }
    assert "a.mdx" in single && IsPageEntry("a.mdx");
  }

  /** The first run without tags deletes `a.mdx.md` and keeps `a.mdx`, which is not a page file. */
  lemma UntidyFirstRun()
    ensures Sync({}, map["a.mdx" := "", "a.mdx.md" := ""]) == Success(map["a.mdx" := ""])
  {
    var dir := map["a.mdx" := "", "a.mdx.md" := ""];
    UntidyPages();
    assert "a.mdx.md" == PageFile("a.mdx");
    assert ToCreate({}, dir) == {} && ToDelete({}, dir) == {"a.mdx"};
    assert (set t | t in ToCreate({}, dir) && !Writable(t)) == {};
    assert (set p | p in ToDelete({}, dir) && PageFile(p) !in dir) == {};
    UntidyReconcile();
  }

  /** Deleting the page `a.mdx` removes `a.mdx.md` and keeps `a.mdx`. */
  lemma UntidyReconcile()
    ensures Reconcile(map["a.mdx" := "", "a.mdx.md" := ""], {}, {"a.mdx"}) == map["a.mdx" := ""]
  {
    var after := Reconcile(map["a.mdx" := "", "a.mdx.md" := ""], {}, {"a.mdx"});
    assert "a.mdx.md" == PageFile("a.mdx");
    assert OccursAt("a.mdx", ".md", 1);
    assert Doomed("a.mdx.md", {"a.mdx"}) && !Doomed("a.mdx", {"a.mdx"});
    assert after.Keys == {"a.mdx"};
  }

  /** The second run still sees the page `a.mdx` and fails deleting `a.mdx.md`, which is gone. */
  lemma UntidySecondRun()
    ensures Sync({}, map["a.mdx" := ""]) == Failure(MissingPages({"a.mdx"}))
  {
    var single := map["a.mdx" := ""];
    UntidyPages();
    assert ToCreate({}, single) == {} && ToDelete({}, single) == {"a.mdx"};
    assert (set t | t in ToCreate({}, single) && !Writable(t)) == {};
    assert PageFile("a.mdx") == "a.mdx.md";
    assert (set p | p in ToDelete({}, single) && PageFile(p) !in single) == {"a.mdx"};
  }

  /** Without tidiness the hook is not idempotent: `a.mdx` and `a.mdx.md` both stand for the page
      `a.mdx`; the first run deletes `a.mdx.md`, the second tries to delete it again and fails. */
  lemma UntidyNotIdempotent()
    ensures var once := Sync({}, map["a.mdx" := "", "a.mdx.md" := ""]);
      once.Success? && Sync({}, once.value).Failure?
  {
    UntidyFirstRun();
    UntidySecondRun();
  }

  /** A backup file `x.md.bak` stands for the page `x.md.bak` beside the page `x`. */
  lemma BackupPages()
    ensures PageNames(map["x.md" := "", "x.md.bak" := ""]) == {"x", "x.md.bak"}
  {
    var dir := map["x.md" := "", "x.md.bak" := ""];
    assert "x.md" == PageFile("x");
    assert OccursAt("x.md.bak", ".md", 1);
    assert !EndsWith("x.md.bak", ".md");
    assert PageName("x.md.bak") == "x.md.bak";
    forall n | n in PageNames(dir)
      ensures n == "x" || n == "x.md.bak"
    {
      var f :| f in dir && IsPageEntry(f) && PageName(f) == n;
    }
    PageFileListed(dir, "x");
    assert "x.md.bak" in dir && IsPageEntry("x.md.bak");
  }

  /** A backup file `x.md.bak` is taken for the page `x.md.bak`, whose delete fails. */
  lemma BackupEntryFails()
    ensures Sync({"x"}, map["x.md" := "", "x.md.bak" := ""]) == Failure(MissingPages({"x.md.bak"}))
  {
    var dir := map["x.md" := "", "x.md.bak" := ""];
    BackupPlan();
    assert (set t | t in ToCreate({"x"}, dir) && !Writable(t)) == {};
    assert PageFile("x.md.bak") == "x.md.bak.md";
    assert (set p | p in ToDelete({"x"}, dir) && PageFile(p) !in dir) == {"x.md.bak"};
  }

  /** For the tag `x`, the backup directory needs no new page and the backup file is to go. */
  lemma BackupPlan()
    ensures ToCreate({"x"}, map["x.md" := "", "x.md.bak" := ""]) == {}
    ensures ToDelete({"x"}, map["x.md" := "", "x.md.bak" := ""]) == {"x.md.bak"}
  {
    BackupPages();
  }

  /** The directory {ruby.md, obsolete.md} has the pages {ruby, obsolete}. */
  lemma ExamplePages(ruby: string, obsolete: string)
    ensures PageNames(map["ruby.md" := ruby, "obsolete.md" := obsolete]) == {"ruby", "obsolete"}
  {
    assert "ruby.md" == PageFile("ruby") && "obsolete.md" == PageFile("obsolete");
    PagesOfTwo("ruby", "obsolete", ruby, obsolete);
  }

  /** A directory holding the page files of two tags has the pages of those two tags. */
  lemma PagesOfTwo(a: string, b: string, x: string, y: string)
    ensures PageNames(map[PageFile(a) := x, PageFile(b) := y]) == {a, b}
  {
    var dir := map[PageFile(a) := x, PageFile(b) := y];
    forall n | n in PageNames(dir)
      ensures n == a || n == b
    {
      var f :| f in dir && IsPageEntry(f) && PageName(f) == n;
    }
    PageFileListed(dir, a);
    PageFileListed(dir, b);
  }

  /** The new pages for a single tag: its page file holding the template. */
  lemma NewPageOfOne(t: string)
    ensures NewPages({t}) == map[PageFile(t) := Template(t)]
  {
    assert forall f :: EndsWith(f, ".md") && PageName(f) in {t} ==> f == PageFile(t);
  }

  /** Creating `jekyll` and deleting `obsolete` in {ruby.md, obsolete.md}. */
  lemma ExampleReconcile(ruby: string, obsolete: string)
    ensures Reconcile(map["ruby.md" := ruby, "obsolete.md" := obsolete], {"jekyll"}, {"obsolete"})
      == map["ruby.md" := ruby, "jekyll.md" := Template("jekyll")]
  {
    assert "ruby.md" == PageFile("ruby") && "obsolete.md" == PageFile("obsolete");
    assert "jekyll.md" == PageFile("jekyll");
    ReconcileOfTwo("ruby", "obsolete", "jekyll", ruby, obsolete);
  }

  /** Deleting the second of two pages and creating a third keeps the first page as it was. */
  lemma ReconcileOfTwo(a: string, b: string, c: string, x: string, y: string)
    requires a != b
    ensures Reconcile(map[PageFile(a) := x, PageFile(b) := y], {c}, {b})
      == map[PageFile(a) := x, PageFile(c) := Template(c)]
  {
    var dir := map[PageFile(a) := x, PageFile(b) := y];
    assert PageName(PageFile(a)) == a && PageName(PageFile(b)) == b;
    var kept := map f | f in dir && !Doomed(f, {b}) :: dir[f];
    assert kept.Keys == {PageFile(a)};
    assert kept == map[PageFile(a) := x];
    NewPageOfOne(c);
    assert map[PageFile(a) := x] + map[PageFile(c) := Template(c)] == map[PageFile(a) := x, PageFile(c) := Template(c)];
  }

  /** Tags {ruby, jekyll} against pages {ruby, obsolete}: `jekyll.md` is created, `obsolete.md`
      deleted and `ruby.md` left as it was. */
  lemma SyncExample(ruby: string, obsolete: string)
    ensures Sync({"ruby", "jekyll"}, map["ruby.md" := ruby, "obsolete.md" := obsolete])
      == Success(map["ruby.md" := ruby, "jekyll.md" := Template("jekyll")])
  {
    var tags := {"ruby", "jekyll"};
    var dir := map["ruby.md" := ruby, "obsolete.md" := obsolete];
    assert ToCreate(tags, dir) == {"jekyll"} && ToDelete(tags, dir) == {"obsolete"} by {
      ExamplePages(ruby, obsolete);
    }
    assert (set t | t in ToCreate(tags, dir) && !Writable(t)) == {};
    assert (set p | p in ToDelete(tags, dir) && PageFile(p) !in dir) == {} by {
      assert "obsolete.md" == PageFile("obsolete");
    }
    ExampleReconcile(ruby, obsolete);
  }
}
