# next-active-path, modelled in Dafny

This project models the path matcher of `next-active-path`: the `isActive`
closure returned by the `useActivePath` hook. Given the browser's current
pathname and a candidate navigation path, `isActive` says whether the
candidate is "active". It can match exactly, or in the default nested mode
it also matches any child route of the candidate.

The closure works in three steps, and the model keeps them apart:

- **Guard.** A missing or empty pathname, or an empty candidate, gives `false`.
- **Cleaning.** The candidate is trimmed. Then one trailing `}` is dropped,
  then one trailing `/`, and an empty result becomes `/`. The pathname is
  cleaned the same way but without the `}` step.
- **Matching.** In exact mode the two cleaned strings must be equal. In nested
  mode they may also differ when the cleaned pathname starts with the cleaned
  candidate followed by `/`.

Files:

- `wrappers.dfy`, module `Wrappers`: `Option`, for an optional JavaScript
  value. It stands for a pathname that may be `null` or `undefined`, for the
  optional `exact?: boolean` property, and for an omitted options argument.
- `js_string.dfy`, module `JsString`: the JavaScript string built-ins the
  closure uses. These are `trim` (section 22.1.3.32 of ECMA-262, 15th
  edition, ECMAScript 2024), `startsWith`, and `replace(/c$/, "")` for one
  literal character.
- `active_path.dfy`, module `ActivePath`: the two cleaners, `IsActive`, the
  options object, and the properties of the matcher.
- `active_path_examples.dfy`, module `ActivePathExamples`: the documented
  scenarios and the edge cases of the cleaning rules.

Two consequences of the code are worth spelling out:

- The `}` step applies to the candidate only (`src/index.ts:43` against
  `src/index.ts:44`). `ActivePathExamples.BraceKeptOnPathname` shows the
  effect: a pathname `/blog}` is not active against the same string `/blog}`
  as candidate.
- Only one trailing `/` is removed, so appending `/` to a pathname can change
  the result: `ActivePathExamples.DoubleSlashNotInvariant` shows this for
  `/a/` and `/a//`. `ActivePath.TrailingSlashInvariant` gives a sufficient
  condition under which it cannot: the pathname is non-empty and ends in
  neither `/` nor whitespace. Some other pathnames, `/` and ` ` among them,
  are unaffected too; `/a/` is not.

## Model

| member | source | states |
|---|---|---|
| `ActivePath.IsActive` | src/index.ts:36-57 | A missing or empty pathname, or an empty candidate, is never active, in either mode. Past that guard, the result is true exactly when the cleaned pathname equals the cleaned candidate or, in nested mode only, is a child route of it: it continues the candidate with `/` |
| `ActivePath.NormalizePath` | src/index.ts:43 | The cleaned candidate is never empty and never starts with whitespace. It is `/`, or the trimmed candidate minus at most a `}`, a `/`, or `/}` at its end. A trimmed candidate that ends in neither `}` nor `/` is returned unchanged |
| `ActivePath.PathStripsTrailing` | src/index.ts:43 | What the `}` and `/` steps remove from the trimmed candidate: a final `/`, a final `/}` as a whole, or a final `}` not preceded by `/`. What remains is the cleaned candidate unless that is `/` |
| `ActivePath.PathTrimsFirst` | src/index.ts:43 | Cleaning a candidate gives the same result as cleaning its trimmed form: trimming comes before the `}` and `/` steps, so `/blog/ ` cleans like `/blog/` |
| `ActivePath.NormalizePathname` | src/index.ts:44 | The cleaned pathname is never empty and never starts with whitespace. It is `/`, or the trimmed pathname minus at most one trailing `/`. A trimmed pathname that does not end in `/` is returned unchanged, even one that ends in `}` |
| `ActivePath.PathnameStripsTrailing` | src/index.ts:44 | The `/` step removes a final `/` from the trimmed pathname. What remains is the cleaned pathname unless that is `/` |
| `ActivePath.PathnameTrimsFirst` | src/index.ts:44 | Cleaning a pathname gives the same result as cleaning its trimmed form: trimming comes before the `/` step |
| `ActivePath.OrRoot` | src/index.ts:43-44 | The empty string becomes `/`, and every non-empty string is left unchanged |
| `ActivePath.StartsWithSlashIsChild` | src/index.ts:55 | `cleanPathname.startsWith(cleanPath + "/")` holds exactly when the pathname is longer than the candidate, starts with it, and has `/` right after it |
| `ActivePath.ExactFlag` | src/index.ts:38 | The flag read by `options.exact` is true only when options were passed and their `exact` property is `true`. An omitted options object gives false, and so does an omitted property |
| `ActivePath.IsActiveWith` | src/index.ts:36-48 | Calling with an options object behaves as exact matching when `exact` is `true` and as nested matching otherwise |
| `ActivePath.DefaultIsNested` | src/index.ts:38 | Omitting the options object, or its `exact` property, gives nested matching |
| `ActivePath.ExactImpliesNested` | src/index.ts:46-56 | A candidate active in exact mode is also active in nested mode |
| `ActivePath.EqualCleanedIsActive` | src/index.ts:46-56 | Past the guard, equal cleaned strings make the candidate active in both modes |
| `ActivePath.PathCleansToRootIff` | src/index.ts:43 | The candidate cleans to `/` exactly when its trimmed form is empty, `}`, `/`, `/}`, `//` or `//}` |
| `ActivePath.PathnameCleansToRootIff` | src/index.ts:44 | The pathname cleans to `/` exactly when its trimmed form is empty, `/` or `//` |
| `ActivePath.BlankPathIsRoot` | src/index.ts:40-43 | A non-empty candidate made only of whitespace passes the guard and cleans to `/`, so it is treated as root and not rejected |
| `ActivePath.RootCandidate` | src/index.ts:53-56 | A candidate that cleans to `/` is active in nested mode exactly when the cleaned pathname is `/` or starts with `//`. Root is not a prefix of every path |
| `ActivePath.PathKeeps` | src/index.ts:43 | A candidate with no surrounding whitespace and no trailing `}` or `/` is already clean |
| `ActivePath.PathnameKeeps` | src/index.ts:44 | A pathname with no surrounding whitespace and no trailing `/` is already clean, even when it ends in `}` |
| `ActivePath.PathSlashDropped` | src/index.ts:43 | A `/` right after the last non-whitespace character of a candidate is dropped, and nothing more is removed |
| `ActivePath.PathnameSlashDropped` | src/index.ts:44 | A `/` right after the last non-whitespace character of a pathname is dropped, and nothing more is removed |
| `ActivePath.BraceIgnoredOnPath` | src/index.ts:43 | A stray `}` after a candidate that ends in neither whitespace nor `}` does not change the cleaned candidate |
| `ActivePath.TrailingSlashInvariant` | src/index.ts:44 | Appending one `/` to a pathname that ends in neither `/` nor whitespace does not change the result, in either mode |
| `ActivePath.SelfActive` | src/index.ts:43-47 | A non-empty string whose trimmed form does not end in `}` is active against itself, in either mode |
| `JsString.IsWhitespace` | src/index.ts:43-44 | The characters `trim` removes: WhiteSpace (TAB, VT, FF, ZWNBSP and the `Zs` space separators) and LineTerminator (LF, CR, LS, PS), as in sections 12.2 and 12.3 of ECMA-262, 15th edition |
| `ActivePath.IsActiveOptions` | src/index.ts:8-16 | The options object of `isActive`: an optional boolean `exact` property, where `true` asks for an exact match and anything else for nested matching |
| `JsString.SkipLeading` | src/index.ts:43-44 | The leading scan of `trim` stops at the first non-whitespace character at or after its start, and everything it skips is whitespace |
| `JsString.SkipTrailing` | src/index.ts:43-44 | The trailing scan of `trim` stops after the last non-whitespace character, never before its lower bound, and everything it skips is whitespace |
| `JsString.Trim` | src/index.ts:43-44 | The trimmed string is no longer than its input. When non-empty it starts and ends with non-whitespace. It is empty only when the input is all whitespace |
| `JsString.TrimSlice` | src/index.ts:43-44 | The trimmed string is a slice of the input with only whitespace outside it: it meets the reference definition `TrimmedSlice` |
| `JsString.TrimUnique` | src/index.ts:43-44 | Any slice meeting the reference definition is the trimmed string, so `trim` is fully determined by it |
| `JsString.TrimKeeps` | src/index.ts:43-44 | A string that neither starts nor ends with whitespace is unchanged by `trim` |
| `JsString.TrimEmptyIff` | src/index.ts:43-44 | `trim` gives the empty string exactly when the input is all whitespace |
| `JsString.TrimIdempotent` | src/index.ts:43-44 | Trimming an already trimmed string changes nothing |
| `JsString.TrimKeepsLast` | src/index.ts:43-44 | `trim` keeps a final non-whitespace character in last place |
| `JsString.TrimAppend` | src/index.ts:43-44 | Appending a non-whitespace character after a non-whitespace end appends it to the trimmed string too |
| `JsString.StartsWith` | src/index.ts:55 | `s.startsWith(p)` holds exactly when `p` is no longer than `s` and is its prefix |
| `JsString.DropTrailing` | src/index.ts:43-44 | `replace(/c$/, "")` removes `c` exactly when it is the last character, removes at most one character, and otherwise leaves the string unchanged |
| `ActivePathExamples.BlogExactOnBlog` | src/index.ts:13 | `isActive('/blog', {exact: true})` is true on `/blog` |
| `ActivePathExamples.BlogExactNotOnPost` | src/index.ts:13 | `isActive('/blog', {exact: true})` is false on `/blog/post` |
| `ActivePathExamples.BlogNestedOnPost` | src/index.ts:10-11 | In nested mode `/blog` is active on its child route `/blog/post` |
| `ActivePathExamples.BlogNotOnBlogger` | src/index.ts:53-56 | In nested mode `/blog` is not active on the sibling `/blogger` |
| `ActivePathExamples.AboutTeam` | src/index.ts:51 | `/about/team` is active on `/about/team` |
| `ActivePathExamples.AboutOnTeam` | src/index.ts:52 | `/about` is active on its child route `/about/team` |
| `ActivePathExamples.AboutTeamTrailingSlash` | src/index.ts:42-44 | `/about/team` is active on `/about/team/` |
| `ActivePathExamples.NoPathname` | src/index.ts:40 | With no pathname, `/dashboard` is not active, in either mode |
| `ActivePathExamples.SlashIsRoot` | src/index.ts:43-44 | `/` cleans to `/` as a candidate and as a pathname |
| `ActivePathExamples.RootOnRoot` | src/index.ts:53-56 | The root candidate is active on `/` |
| `ActivePathExamples.RootNotOnSettings` | src/index.ts:53-56 | The root candidate is not active on `/settings` |
| `ActivePathExamples.BraceAndBlankAreRoot` | src/index.ts:43 | A lone `}` and a blank candidate both clean to `/` |
| `ActivePathExamples.BraceThenSlash` | src/index.ts:43 | `/blog/}` cleans to `/blog`, because the `}` goes first and then the `/` |
| `ActivePathExamples.SlashThenBrace` | src/index.ts:43 | `}/` cleans to `}`: no `}` step runs after the `/` step |
| `ActivePathExamples.BraceKeptOnPathname` | src/index.ts:43-44 | The candidate `/blog}` cleans to `/blog`, but the pathname `/blog}` stays as it is, so the two do not match |
| `ActivePathExamples.DoubleSlashNotInvariant` | src/index.ts:44 | `/a` is an exact match on `/a/` but not on `/a//`, because only one trailing `/` is removed |

## Left out

- The hook itself is not modelled. This covers `"use client"`, the import and
  call of `usePathname` from `next/navigation`, and returning the closure
  (`src/index.ts:1-3`, `src/index.ts:27-28`, `src/index.ts:59`). They are
  framework glue. The pathname they supply is the `pathname: Option<string>`
  parameter of `ActivePath.IsActive`, with `None` for `null` or `undefined`.
- JavaScript truthiness is modelled only for the values that reach it. `!pathname`
  holds for `None` and `""`, and `!path` for `""`. The TypeScript types rule out
  every other falsy value.
- The options object is modelled only through its `exact` property, as
  `Option<bool>`. Its other properties are not modelled. A non-boolean `exact`
  and an explicit `null` options object are not modelled either: the types
  forbid both, and the `null` case would throw.
- Strings are sequences of Unicode scalar values, not UTF-16 code units. Every
  whitespace character `trim` removes lies in the Basic Multilingual Plane, so
  this only affects lone surrogates, which the model cannot represent.
- `JsString.IsWhitespace` fixes the Unicode `Zs` category to the members it
  lists. A future Unicode version that adds a space separator is not tracked.
- General regular expressions are not modelled. Only the two `replace` calls
  with a one-character pattern anchored by `$` are.
