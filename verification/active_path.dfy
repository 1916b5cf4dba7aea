/** The `isActive` closure of `useActivePath`: decides whether a candidate
    navigation path is active relative to the current pathname, either as an
    exact match or as the pathname itself or one of its nested child routes.
    The host router's pathname is passed in as a parameter. */
module ActivePath {
  import opened Wrappers
  import opened JsString

  /** The options object of `isActive`; `exact` is an optional property. */
  datatype IsActiveOptions = IsActiveOptions(exact: Option<bool>)

  /** `child` is a nested route of `parent`: it continues `parent` with a `/`
      and then anything. The reference definition of a child match. */
  ghost predicate IsChildOf(child: string, parent: string) {
    |parent| < |child| && child[..|parent|] == parent && child[|parent|] == '/'
  }

  /** `child.startsWith(`${parent}/`)` is exactly a child match. */
  lemma {:induction false} StartsWithSlashIsChild(child: string, parent: string)
    ensures StartsWith(child, parent + "/") <==> IsChildOf(child, parent)
  {
    var q := parent + "/";
    if StartsWith(child, q) {
      assert child[..|parent|] == q[..|parent|];
    }
    if IsChildOf(child, parent) {
      assert child[..|q|] == child[..|parent|] + [child[|parent|]];
    }
  }

  /** `s || "/"`: the empty string is falsy, so it becomes the root path. */
  function OrRoot(s: string): (r: string)
    ensures r != []
    ensures s == [] ==> r == "/"
    ensures s != [] ==> r == s
  {
    if s == [] then "/" else s
  }

  /** The cleaned candidate path: trim, drop one trailing `}`, drop one
      trailing `/`, and fall back to the root path. */
  function NormalizePath(path: string): (r: string)
    ensures r != [] && !IsWhitespace(r[0])
    ensures var t := Trim(path);
      r == "/" || t == r || t == r + "}" || t == r + "/" || t == r + "/}"
    ensures var t := Trim(path);
      t != [] && t[|t| - 1] != '}' && t[|t| - 1] != '/' ==> r == t
  {
    OrRoot(DropTrailing(DropTrailing(Trim(path), '}'), '/'))
  }

  /** The cleaned current pathname: like `NormalizePath` but without the `}`
      step, so a trailing `}` on the pathname is kept. */
  function NormalizePathname(pathname: string): (r: string)
    ensures r != [] && !IsWhitespace(r[0])
    ensures var t := Trim(pathname); r == "/" || t == r || t == r + "/"
    ensures var t := Trim(pathname); t != [] && t[|t| - 1] != '/' ==> r == t
  {
    OrRoot(DropTrailing(Trim(pathname), '/'))
  }

  /** What the `}` and `/` steps remove from the trimmed candidate: a final
      `/`, a final `/}` together, or a final `}` on its own; whatever is left
      is the cleaned candidate unless that is the root path. */
  lemma {:induction false} PathStripsTrailing(path: string)
    ensures var t, r := Trim(path), NormalizePath(path);
      t != [] && t[|t| - 1] == '/' ==> r == "/" || t == r + "/"
    ensures var t, r := Trim(path), NormalizePath(path);
      |t| >= 2 && t[|t| - 2] == '/' && t[|t| - 1] == '}' ==> r == "/" || t == r + "/}"
    ensures var t, r := Trim(path), NormalizePath(path);
      t != [] && t[|t| - 1] == '}' && (|t| < 2 || t[|t| - 2] != '/') ==> r == "/" || t == r + "}"
  {
  }

  /** What the `/` step removes from the trimmed pathname: a final `/`;
      whatever is left is the cleaned pathname unless that is the root path. */
  lemma {:induction false} PathnameStripsTrailing(pathname: string)
    ensures var t, r := Trim(pathname), NormalizePathname(pathname);
      t != [] && t[|t| - 1] == '/' ==> r == "/" || t == r + "/"
  {
  }

  /** Cleaning trims first, so whitespace around the candidate never hides
      a trailing `}` or `/` from the later steps. */
  lemma {:induction false} PathTrimsFirst(path: string)
    ensures NormalizePath(Trim(path)) == NormalizePath(path)
  {
    TrimIdempotent(path);
  }

  /** Cleaning trims first, so whitespace around the pathname never hides a
      trailing `/` from the later step. */
  lemma {:induction false} PathnameTrimsFirst(pathname: string)
    ensures NormalizePathname(Trim(pathname)) == NormalizePathname(pathname)
  {
    TrimIdempotent(pathname);
  }

  /** `isActive(path, {exact})` with the current pathname supplied by the
      caller: `None` stands for `null`/`undefined`. */
  function IsActive(pathname: Option<string>, path: string, exact: bool): (r: bool)
    ensures pathname.None? || pathname == Some("") || path == "" ==> !r
    ensures pathname.Some? && pathname.value != "" && path != "" ==>
      (r <==> || NormalizePathname(pathname.value) == NormalizePath(path)
              || (!exact && IsChildOf(NormalizePathname(pathname.value), NormalizePath(path))))
  {
    match pathname
    case None => false
    case Some(current) =>
      if current == "" || path == "" then false
      else
        var cleanPath := NormalizePath(path);
        var cleanPathname := NormalizePathname(current);
        if exact then cleanPathname == cleanPath
        else
          StartsWithSlashIsChild(cleanPathname, cleanPath);
          cleanPathname == cleanPath || StartsWith(cleanPathname, cleanPath + "/")
  }

  /** The `exact` flag the closure reads: `options` defaults to
      `{exact: false}`, and an absent `exact` property is falsy. */
  function ExactFlag(options: Option<IsActiveOptions>): (r: bool)
    ensures r <==> options == Some(IsActiveOptions(Some(true)))
  {
    match options
    case None => false
    case Some(o) => o.exact.GetOr(false)
  }

  /** `isActive(path, options)` with the options object as the caller passes it. */
  function IsActiveWith(pathname: Option<string>, path: string,
                        options: Option<IsActiveOptions>): (r: bool)
    ensures options != Some(IsActiveOptions(Some(true))) ==> r == IsActive(pathname, path, false)
    ensures options == Some(IsActiveOptions(Some(true))) ==> r == IsActive(pathname, path, true)
  {
    IsActive(pathname, path, ExactFlag(options))
  }

  /** An exact match is also a nested match. */
  lemma {:induction false} ExactImpliesNested(pathname: Option<string>, path: string)
    ensures IsActive(pathname, path, true) ==> IsActive(pathname, path, false)
  {
  }

  /** Omitting the options, or the `exact` property, gives nested matching. */
  lemma {:induction false} DefaultIsNested(pathname: Option<string>, path: string)
    ensures IsActiveWith(pathname, path, None) == IsActive(pathname, path, false)
    ensures IsActiveWith(pathname, path, Some(IsActiveOptions(None))) == IsActive(pathname, path, false)
  {
  }

  /** Once past the guard, equal cleaned strings are active in both modes. */
  lemma {:induction false} EqualCleanedIsActive(pathname: string, path: string, exact: bool)
    requires pathname != "" && path != ""
    requires NormalizePathname(pathname) == NormalizePath(path)
    ensures IsActive(Some(pathname), path, exact)
  {
  }

  /** The candidate cleans to the root path exactly when its trimmed form is
      empty, `}`, `/`, `/}`, `//` or `//}`. */
  lemma {:induction false} PathCleansToRootIff(path: string)
    ensures NormalizePath(path) == "/" <==> Trim(path) in {"", "}", "/", "/}", "//", "//}"}
  {
    var t := Trim(path);
    var u := DropTrailing(t, '}');
    var v := DropTrailing(u, '/');
    assert NormalizePath(path) == OrRoot(v);
    if NormalizePath(path) == "/" {
      assert v == [] || v == "/";
      if v == [] {
        assert u == [] || u == "/";
      } else {
        assert u == "//";
      }
      if u == [] {
        assert t == [] || t == "}";
      } else if u == "/" {
        assert t == "/" || t == "/}";
      } else {
        assert t == "//" || t == "//}";
      }
    }
    if t == "/}" {
      assert u == "/";
    } else if t == "//}" {
      assert u == "//";
    }
  }

  /** The pathname cleans to the root path exactly when its trimmed form is
      empty, `/` or `//`. */
  lemma {:induction false} PathnameCleansToRootIff(pathname: string)
    ensures NormalizePathname(pathname) == "/" <==> Trim(pathname) in {"", "/", "//"}
  {
    var t := Trim(pathname);
    var v := DropTrailing(t, '/');
    if NormalizePathname(pathname) == "/" {
      assert v == "" || v == "/";
      if v == "/" {
        assert t == "//";
      }
    }
  }

  /** A whitespace-only candidate passes the guard (it is not `""`) and is
      treated as the root path rather than rejected. */
  lemma {:induction false} BlankPathIsRoot(path: string)
    requires path != []
    requires forall i :: 0 <= i < |path| ==> IsWhitespace(path[i])
    ensures NormalizePath(path) == "/"
  {
    TrimEmptyIff(path);
    PathCleansToRootIff(path);
  }

  /** The root candidate is not a universal prefix: in nested mode it is
      active only when the cleaned pathname is `/` or begins with `//`. */
  lemma {:induction false} RootCandidate(pathname: string, path: string)
    requires pathname != "" && path != ""
    requires NormalizePath(path) == "/"
    ensures var p := NormalizePathname(pathname);
      IsActive(Some(pathname), path, false) <==> p == "/" || (|p| >= 2 && p[..2] == "//")
  {
  }

  /** A candidate with no surrounding whitespace and no trailing `}` or `/`
      is already clean. */
  lemma {:induction false} PathKeeps(path: string)
    requires path != [] && !IsWhitespace(path[0]) && !IsWhitespace(path[|path| - 1])
    requires path[|path| - 1] != '}' && path[|path| - 1] != '/'
    ensures NormalizePath(path) == path
  {
    TrimKeeps(path);
  }

  /** A pathname with no surrounding whitespace and no trailing `/` is already
      clean, whatever else it ends with (a `}` included). */
  lemma {:induction false} PathnameKeeps(pathname: string)
    requires pathname != [] && !IsWhitespace(pathname[0])
    requires !IsWhitespace(pathname[|pathname| - 1]) && pathname[|pathname| - 1] != '/'
    ensures NormalizePathname(pathname) == pathname
  {
    TrimKeeps(pathname);
  }

  /** A `/` right after the last non-whitespace character of a candidate is
      removed, and only that one. */
  lemma {:induction false} PathSlashDropped(path: string)
    requires path != [] && !IsWhitespace(path[|path| - 1])
    ensures NormalizePath(path + "/") == Trim(path)
  {
    TrimAppend(path, '/');
    var t := Trim(path);
    TrimKeepsLast(path);
    assert DropTrailing(t + "/", '}') == t + "/";
    assert DropTrailing(t + "/", '/') == t;
  }

  /** A `/` right after the last non-whitespace character of a pathname is
      removed, and only that one. */
  lemma {:induction false} PathnameSlashDropped(pathname: string)
    requires pathname != [] && !IsWhitespace(pathname[|pathname| - 1])
    ensures NormalizePathname(pathname + "/") == Trim(pathname)
  {
    TrimAppend(pathname, '/');
    var t := Trim(pathname);
    TrimKeepsLast(pathname);
    assert DropTrailing(t + "/", '/') == t;
  }

  /** A stray `}` after a candidate that ends in neither whitespace nor `}`
      is ignored. */
  lemma {:induction false} BraceIgnoredOnPath(path: string)
    requires path != [] && !IsWhitespace(path[|path| - 1]) && path[|path| - 1] != '}'
    ensures NormalizePath(path + "}") == NormalizePath(path)
  {
    TrimAppend(path, '}');
    var t := Trim(path);
    TrimKeepsLast(path);
    assert DropTrailing(t + "}", '}') == t;
    assert DropTrailing(t, '}') == t;
  }

  /** Appending a single `/` to a pathname that ends neither in `/` nor in
      whitespace does not change the result, in either mode. */
  lemma {:induction false} TrailingSlashInvariant(pathname: string, path: string, exact: bool)
    requires pathname != []
    requires pathname[|pathname| - 1] != '/' && !IsWhitespace(pathname[|pathname| - 1])
    ensures IsActive(Some(pathname + "/"), path, exact) == IsActive(Some(pathname), path, exact)
  {
    PathnameSlashDropped(pathname);
    var t := Trim(pathname);
    TrimKeepsLast(pathname);
    assert NormalizePathname(pathname) == t;
  }

  /** A string whose trimmed form does not end in `}` is active against itself:
      both cleaners then agree on it. */
  lemma {:induction false} SelfActive(s: string, exact: bool)
    requires s != []
    requires var t := Trim(s); t == [] || t[|t| - 1] != '}'
    ensures IsActive(Some(s), s, exact)
  {
    assert NormalizePath(s) == NormalizePathname(s);
  }
}
