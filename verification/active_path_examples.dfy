/** The scenarios documented alongside `isActive`, and the edge cases of its
    cleaning rules, checked against the model. Each one is derived from the
    general lemmas of `ActivePath`. */
module ActivePathExamples {
  import opened Wrappers
  import opened JsString
  import opened ActivePath

  /** `isActive('/blog', { exact: true })` holds on `/blog`. */
  lemma BlogExactOnBlog()
    ensures IsActive(Some("/blog"), "/blog", true)
  {
    PathKeeps("/blog");
    PathnameKeeps("/blog");
  }

  /** `isActive('/blog', { exact: true })` does not hold on `/blog/post`. */
  lemma BlogExactNotOnPost()
    ensures !IsActive(Some("/blog/post"), "/blog", true)
  {
    PathKeeps("/blog");
    PathnameKeeps("/blog/post");
  }

  /** Without `exact`, `/blog` is active on its child route `/blog/post`. */
  lemma BlogNestedOnPost()
    ensures IsActive(Some("/blog/post"), "/blog", false)
  {
    PathKeeps("/blog");
    PathnameKeeps("/blog/post");
  }

  /** A longer sibling such as `/blogger` is not a child route of `/blog`. */
  lemma BlogNotOnBlogger()
    ensures !IsActive(Some("/blogger"), "/blog", false)
  {
    PathKeeps("/blog");
    PathnameKeeps("/blogger");
  }

  /** `/about/team` is active on `/about/team`. */
  lemma AboutTeam()
    ensures IsActive(Some("/about/team"), "/about/team", false)
  {
    PathKeeps("/about/team");
    PathnameKeeps("/about/team");
  }

  /** `/about` is active on its child route `/about/team`. */
  lemma AboutOnTeam()
    ensures IsActive(Some("/about/team"), "/about", false)
  {
    PathKeeps("/about");
    PathnameKeeps("/about/team");
  }

  /** `/about/team` is also active on `/about/team/`. */
  lemma AboutTeamTrailingSlash()
    ensures IsActive(Some("/about/team/"), "/about/team", false)
  {
    assert "/about/team" + "/" == "/about/team/";
    TrailingSlashInvariant("/about/team", "/about/team", false);
    AboutTeam();
  }

  /** With no pathname yet, nothing is active, in either mode. */
  lemma NoPathname(exact: bool)
    ensures !IsActive(None, "/dashboard", exact)
  {
  }

  /** A lone `/` cleans to the root path, as a candidate and as a pathname. */
  lemma SlashIsRoot()
    ensures NormalizePath("/") == "/" && NormalizePathname("/") == "/"
  {
    TrimKeeps("/");
    PathCleansToRootIff("/");
    PathnameCleansToRootIff("/");
  }

  /** The root candidate is active on `/`. */
  lemma RootOnRoot()
    ensures IsActive(Some("/"), "/", false)
  {
    SlashIsRoot();
  }

  /** The root candidate is not active on `/settings`: `/settings` does not
      continue `/` with another `/`. */
  lemma RootNotOnSettings()
    ensures !IsActive(Some("/settings"), "/", false)
  {
    RootNotOnSibling("/settings");
  }

  /** The root candidate is not active on a clean pathname whose second
      character is not `/`. */
  lemma RootNotOnSibling(pathname: string)
    requires |pathname| >= 2 && pathname[0] == '/' && pathname[1] != '/'
    requires !IsWhitespace(pathname[|pathname| - 1]) && pathname[|pathname| - 1] != '/'
    ensures !IsActive(Some(pathname), "/", false)
  {
    SlashIsRoot();
    PathnameKeeps(pathname);
    RootCandidate(pathname, "/");
  }

  /** A lone `}` and a blank candidate clean to the root path. */
  lemma BraceAndBlankAreRoot()
    ensures NormalizePath("}") == "/"
    ensures NormalizePath("  ") == "/"
  {
    TrimKeeps("}");
    PathCleansToRootIff("}");
    BlankPathIsRoot("  ");
  }

  /** The `}` is dropped before the `/`: `/blog/}` cleans to `/blog`. */
  lemma BraceThenSlash()
    ensures NormalizePath("/blog/}") == "/blog"
  {
    SlashBraceDropped("/blog");
    assert "/blog" + "/}" == "/blog/}";
  }

  /** A `/}` right after a clean candidate is removed as a whole. */
  lemma SlashBraceDropped(path: string)
    requires path != [] && !IsWhitespace(path[0]) && !IsWhitespace(path[|path| - 1])
    requires path[|path| - 1] != '}' && path[|path| - 1] != '/'
    ensures NormalizePath(path + "/}") == path
  {
    BraceIgnoredOnPath(path + "/");
    PathSlashDropped(path);
    TrimKeeps(path);
    assert path + "/" + "}" == path + "/}";
  }

  /** There is no second `}` step after the `/` one, so `}/` keeps its
      brace. */
  lemma SlashThenBrace()
    ensures NormalizePath("}/") == "}"
  {
    PathSlashDropped("}");
    TrimKeeps("}");
    assert "}" + "/" == "}/";
  }

  /** The `}` step is not applied to the pathname, so `/blog}` is not active
      against the identical candidate `/blog}`. */
  lemma BraceKeptOnPathname()
    ensures NormalizePath("/blog}") == "/blog"
    ensures NormalizePathname("/blog}") == "/blog}"
    ensures !IsActive(Some("/blog}"), "/blog}", false)
  {
    BlogBraceCandidate();
    BlogBracePathname();
  }

  /** The candidate `/blog}` loses its brace. */
  lemma BlogBraceCandidate()
    ensures NormalizePath("/blog}") == "/blog"
  {
    BraceIgnoredOnPath("/blog");
    PathKeeps("/blog");
    assert "/blog" + "}" == "/blog}";
  }

  /** The pathname `/blog}` keeps its brace. */
  lemma BlogBracePathname()
    ensures NormalizePathname("/blog}") == "/blog}"
  {
    PathnameKeeps("/blog}");
  }

  /** Only one trailing `/` is removed: `/a` is an exact match on `/a/` but
      not on `/a//`, so appending `/` to a pathname that already ends in `/`
      can change the result. */
  lemma DoubleSlashNotInvariant()
    ensures IsActive(Some("/a/"), "/a", true)
    ensures !IsActive(Some("/a//"), "/a", true)
  {
    PathKeeps("/a");
    PathnameSlashDropped("/a");
    TrimKeeps("/a");
    assert "/a" + "/" == "/a/";
    PathnameSlashDropped("/a/");
    TrimKeeps("/a/");
    assert "/a/" + "/" == "/a//";
  }
}
