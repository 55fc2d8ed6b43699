/** The older `:pre_render` hook: for every tag it writes `tags/<tag>.md` unless that file exists.
    It never deletes anything. */
module LegacyTagSync {
  import opened Wrappers
  import opened Strings
  import opened TagPages

  /** The content of a page created by this hook; the permalink has no trailing slash. */
  function LegacyTemplate(tag: string): string {
    FrontMatter(tag, "/tags/" + tag)
  }

  /** Tags whose page file does not exist yet. */
  function Missing(tags: set<string>, dir: Dir): set<string> {
    set t | t in tags && PageFile(t) !in dir
  }

  /** The hook. A write that cannot succeed (a tag naming a path below the directory) aborts it with the
      set of such tags; the pages written before the failing one are not modelled. */
  function LegacySync(tags: set<string>, dir: Dir): (r: Result<Dir, set<string>>)
    ensures r.Failure? ==> r.error != {} && forall t :: t in r.error ==> t in tags && PageFile(t) !in dir && !Writable(t)
    ensures r.Success? ==> forall t :: t in tags ==> Writable(t) || PageFile(t) in dir
  {
    var unwritable := set t | t in Missing(tags, dir) && !Writable(t);
    if unwritable != {} then Failure(unwritable)
    else
      assert forall t :: t in Missing(tags, dir) ==> t !in unwritable;
      Success(dir + NewLegacyPages(Missing(tags, dir)))
  }

  /** The pages written for the tags in `create`. */
  function NewLegacyPages(create: set<string>): (m: Dir)
    ensures forall f :: f in m <==> EndsWith(f, ".md") && Chomp(f, ".md") in create
    ensures forall f :: f in m ==> m[f] == LegacyTemplate(Chomp(f, ".md"))
  {
    var m := map t | t in create :: PageFile(t) := LegacyTemplate(t);
    forall f | EndsWith(f, ".md") && Chomp(f, ".md") in create
      ensures f in m
    {
      assert f == PageFile(Chomp(f, ".md"));
    }
    m
  }
}

/** Properties of the create-only hook. */
module LegacyTagSyncProofs {
  import opened Wrappers
  import opened Strings
  import opened TagPages
  import opened LegacyTagSync

  /** What a successful run means: the missing pages are writable and are added to the directory. */
  lemma LegacySuccess(tags: set<string>, dir: Dir)
    requires LegacySync(tags, dir).Success?
    ensures forall t :: t in Missing(tags, dir) ==> Writable(t)
    ensures LegacySync(tags, dir).value == dir + NewLegacyPages(Missing(tags, dir))
  {
    var unwritable := set t | t in Missing(tags, dir) && !Writable(t);
    if unwritable != {} {
      assert false;
    } else {
      assert forall t :: t in Missing(tags, dir) ==> t !in unwritable;
    }
  }

  /** The hook succeeds exactly when every tag without a page is writable. */
  lemma LegacySucceedsIff(tags: set<string>, dir: Dir)
    ensures LegacySync(tags, dir).Success? <==> forall t :: t in tags && PageFile(t) !in dir ==> Writable(t)
  {
    if forall t :: t in tags && PageFile(t) !in dir ==> Writable(t) {
      assert (set t | t in Missing(tags, dir) && !Writable(t)) == {};
    }
  }

  /** After the hook every tag has a page file; existing files, pages or not, are neither overwritten
      nor deleted; and a new file is added only for a tag. */
  lemma LegacyPostState(tags: set<string>, dir: Dir)
    requires LegacySync(tags, dir).Success?
    ensures forall t :: t in tags ==> PageFile(t) in LegacySync(tags, dir).value
    ensures forall f :: f in dir ==> f in LegacySync(tags, dir).value && LegacySync(tags, dir).value[f] == dir[f]
    ensures LegacySync(tags, dir).value.Keys == dir.Keys + set t | t in tags :: t + ".md"
  {
    LegacySuccess(tags, dir);
    var r := LegacySync(tags, dir).value;
    forall t | t in tags
      ensures PageFile(t) in r
    {
      if PageFile(t) !in dir {
        assert t in Missing(tags, dir);
      }
    }
    forall f | f in r.Keys
      ensures f in dir.Keys + set t | t in tags :: t + ".md"
    {
      if f !in dir {
        var t :| t in Missing(tags, dir) && f == PageFile(t);
      }
    }
  }

  /** A created page holds the front-matter whose permalink has no trailing slash. */
  lemma LegacyTemplateContent(tags: set<string>, dir: Dir, t: string)
    requires LegacySync(tags, dir).Success?
    requires t in tags && t + ".md" !in dir
    ensures LegacySync(tags, dir).value[t + ".md"] ==
      "---\nlayout: tagpage\ntag: " + t + "\npermalink: /tags/" + t + "\n---\n"
  {
    LegacySuccess(tags, dir);
    assert t in Missing(tags, dir);
  }

  /** With every tag's page present the hook leaves the directory as it is. */
  lemma LegacyInSync(tags: set<string>, dir: Dir)
    requires Missing(tags, dir) == {}
    ensures LegacySync(tags, dir) == Success(dir)
  {
    assert (set t | t in Missing(tags, dir) && !Writable(t)) == {};
    assert NewLegacyPages(Missing(tags, dir)) == map[];
    assert dir + map[] == dir;
  }

  /** A second run with the same tags writes nothing. */
  lemma LegacyIdempotent(tags: set<string>, dir: Dir)
    requires LegacySync(tags, dir).Success?
    ensures Missing(tags, LegacySync(tags, dir).value) == {}
    ensures LegacySync(tags, LegacySync(tags, dir).value) == LegacySync(tags, dir)
  {
    LegacyPostState(tags, dir);
    LegacyInSync(tags, LegacySync(tags, dir).value);
  }
}
