# Blog logic, modelled and verified in Dafny

This project models the five pieces of logic of a personal blog built on
Nuxt: the list paginator that can bind its current page to a URL query
parameter, the page-number strip shown under a paginated list, the
normaliser that turns microblog ("talk") API items into `TalkItem`s, the
normaliser that turns Mastodon statuses into `TransformedMastodonItem`s
(with `:shortcode:` emoji substitution), and the server endpoint that
cleans a GitHub repository name and projects the GitHub API's answer.
Network requests are inputs: each normaliser receives the decoded
response, or `Failed` when the request or decoding threw.

Modules (one per modelled source file, then shared helpers):

- `Pagination` (pagination.dfy): `Paginator<T>`, a class holding the
  source list, the options, the in-memory page and the URL query (a
  `map<string, string>`); `totalPages`, `transformPage`, `mode` and
  `listPaged` are functions of that state.
- `PageStrip` (page_strip.dfy): `genPageArr` as methods with loops over
  `Entry = Page(n) | Ellipsis` (the source's `Infinity`), proved against
  `Dedup(RawStrip(...))`, and lemmas about the strip.
- `Talks` (talks.dfy), `Mastodon` (mastodon.dfy), `GithubRepo`
  (github_repo.dfy): pure functions.
- `Types` (types.dfy): the record shapes of app/types/talk.ts and
  app/types/mastodon.ts. `Strings`, `Ints`, `Fetch`, `Wrappers`: helpers
  shared by the modules above; they model no source file of their own.

Quirks of the code that the model keeps: the page count of an empty
list is `initialPage`, not 1; `transformPage` itself checks only that a
number lies between 1 and the page count, with no integrality check (a
fractional query string is read as not a number here, see "## Left
out"); an empty `bindQuery` is falsy and binds nothing; an unbound page
is never validated, so a page of 0 or below is possible and `slice` then
counts from the end of the list.

## Model

| member | source | states |
|---|---|---|
| `Pagination.TotalPagesOf` | app/composables/usePagination.ts:15 | for a non-empty list the result is the ceiling of length / perPage (the least r with length <= r * perPage, at least 1); for an empty list it is `initialPage` |
| `Pagination.Transform` | app/composables/usePagination.ts:17-20 | a value is kept exactly when it is a number from 1 to `totalPages`; anything else, including a value that is not a number, becomes `initialPage` |
| `Pagination.TransformInRange` | app/composables/usePagination.ts:19 | the transformed page is in [1, totalPages] or is `initialPage` |
| `Pagination.TransformIdempotent` | app/composables/usePagination.ts:19 | transforming an already transformed page changes nothing |
| `Pagination.BoundName` | app/composables/usePagination.ts:28 | a query name binds the page exactly when it is present and non-empty (truthy) |
| `Pagination.ModeOf` | app/composables/usePagination.ts:23-26 | `replace` exactly when a non-empty query name is given and the current query has a non-empty value under it, `push` otherwise |
| `Pagination.PageSliceItems` | app/composables/usePagination.ts:32-35 | for page p >= 1 the items from (p-1)*perPage to min(length, p*perPage); never more than perPage items; empty past the end and for page 0; a negative page takes a window counted from the end |
| `Pagination.ConcatPagesPrefix` | app/composables/usePagination.ts:32-35 | pages 1..k read one after another are the first min(length, k*perPage) items of the list |
| `Pagination.PagesCoverList` | app/composables/usePagination.ts:15-35 | for a non-empty list, pages 1..totalPages together give back the whole list in order |
| `Pagination.TwentyFiveItems` | app/composables/usePagination.ts:15-35 | 25 items at 10 per page: 3 pages, page 1 is items 0-9, page 3 is items 20-24, page 7 falls back to 1 |
| `Pagination.EmptyList` | app/composables/usePagination.ts:15-35 | an empty list with the default first page has 1 page, and that page is empty |
| `Pagination.Paginator.constructor` | app/composables/usePagination.ts:7-30 | defaults: `initialPage` 1; `perPage` the option, else the truthy application setting, else 10; the unbound page starts at `initialPage`; the page is bound only to a non-empty query name, so an empty `bindQuery` leaves it in memory at `initialPage` with mode `push` |
| `Pagination.Paginator.SetPage` | app/composables/usePagination.ts:28-30 | unbound, the page becomes the value as given; bound, the value's decimal string is written under the query name using the mode in force before the write, after which the mode is `replace` and the page reads back as the transformed value |
| `Pagination.Paginator.SetList` | app/composables/usePagination.ts:7 | a changed source list replaces the old one; every derived value is recomputed from it |
| `Pagination.Paginator.Navigate` | app/composables/usePagination.ts:28-29 | an outside change of the URL replaces the query the bound page is read from |
| `Pagination.Paginator.Page` | app/composables/usePagination.ts:28-30 | unbound, the in-memory page; bound, the URL value when it parses to a number from 1 to `totalPages`, `initialPage` when it does not or when the URL has no such parameter; a bound page is always in range or `initialPage` |
| `Pagination.Paginator.ListPaged` | app/composables/usePagination.ts:32-35 | the current page's items: for a page from 1 on, the items from `(page - 1) * perPage` up to the next `perPage`, cut at the end of the list; page 0 gives nothing; never more than `perPage` items |
| `Pagination.Paginator.SetMode` | app/composables/usePagination.ts:25 | the setter of `mode` leaves the mode unchanged |
| `Strings.ParseIntToString` | app/composables/usePagination.ts:17-18 | a page number written to the URL as a string parses back to the same number |
| `PageStrip.RunAt` | app/utils/index.ts:11 | the window loop yields pages left, left+1, ..., right, one per step |
| `PageStrip.BuildPageArr` | app/utils/index.ts:7-16 | the array before de-duplication: page 1 and a marker in front when left > 1, the window, a marker and the last page behind when right < total |
| `PageStrip.DistinctEntries` | app/utils/index.ts:18 | the `Set` pass keeps the first occurrence of each entry, in order |
| `PageStrip.DedupDistinct` | app/utils/index.ts:18 | the `Set` pass leaves no entry twice and adds nothing |
| `PageStrip.GenPageArr` | app/utils/index.ts:2-19 | the strip is the de-duplicated array, holds no entry twice, and `expand` defaults to 2 |
| `PageStrip.StripShape` | app/utils/index.ts:8-18 | after de-duplication: front entries, the window, then the last page, preceded by a marker only when no marker is in front |
| `PageStrip.StripDistinct` | app/utils/index.ts:18 | no duplicate entries and at most one ellipsis marker |
| `PageStrip.StripShowsWindow` | app/utils/index.ts:8-11 | every page from left to right appears, consecutive and ascending, right after the front entries |
| `PageStrip.StripFront` | app/utils/index.ts:13-14 | when left > 1 the strip starts with page 1 and a marker |
| `PageStrip.StripBack` | app/utils/index.ts:15-18 | for expand >= 0 and right < total the strip ends with the last page, and a marker precedes it exactly when left <= 1 |
| `PageStrip.StripIncreasing` | app/utils/index.ts:8-16 | for total >= 1 the page numbers of the strip are strictly increasing |
| `PageStrip.StripLength` | app/utils/index.ts:8-18 | for expand >= 0 the strip has at most 2 * expand + 4 entries |
| `PageStrip.StripHidesRightGap` | app/utils/index.ts:13-18 | page 10 of 20 gives 1, marker, 8-12, 20: the gap between 12 and 20 is unmarked |
| `PageStrip.DistinctPages` | app/utils/index.ts:18 | dropping repeated page numbers while keeping every marker |
| `PageStrip.GenPageArrMarked` | app/utils/index.ts:13-18 | the corrected strip keeps both markers: every gap between two shown pages is marked and it ends with a marker and the last page when right < total |
| `PageStrip.RawStripMarked` | app/utils/index.ts:8-16 | for expand >= 0 the array before de-duplication repeats no page, marks every gap and has increasing pages |
| `Strings.Contains` | app/talks.ts:94 | `includes` holds exactly when the text occurs at some index |
| `Strings.DigitRun` | app/talks.ts:95 | the greedy `\d+` capture: the longest all-digit prefix |
| `Talks.IdMatchFrom` | app/talks.ts:95 | the leftmost index from which `id=` followed by a digit occurs |
| `Talks.IdParam` | app/talks.ts:95-96 | no id exactly when `id=(\d+)` matches nowhere; otherwise the whole digit run after the leftmost match |
| `Talks.MusicOf` | app/talks.ts:93-108 | any player keeps the URL; a NetEase URL gives a player with the `id=` digits, server `netease` and type `song` exactly when it has an `id=` match, and none otherwise; any other URL gives a player with the URL alone |
| `Talks.NormaliseTalk` | app/talks.ts:46-115 | id, text and date copied; tag names in order or `[]`; image URLs in order or absent; a video (youtube for an 11-character id, else bilibili) exactly for a non-empty VIDEO extension; a website exactly for a non-empty WEBSITE extension that parses; the music rules for NetEase and other URLs; at most one of video, website, music |
| `Talks.FetchTalks` | app/talks.ts:37-121 | empty when the request fails or the code is not 1; otherwise one normalised item per input item, in order |
| `Mastodon.ImageUrls` | app/mastodon.ts:41-43 | exactly the URLs of the `image` attachments |
| `Mastodon.ImageUrlsAppend` | app/mastodon.ts:41-43 | filtering keeps attachment order |
| `Mastodon.FirstVideoFrom` | app/mastodon.ts:47-49 | the first attachment of kind `video` or `gifv`, or none when there is none |
| `Strings.WordRunLength` | app/mastodon.ts:76 | the greedy `\w+` run: all word characters, followed by a non-word character or the end |
| `Mastodon.ShortcodeAt` | app/mastodon.ts:76 | `:(\w+):` matches at the start exactly when it returns the name's length |
| `Mastodon.ShortcodeOfName` | app/mastodon.ts:76 | a `:name:` of word characters is recognised with the name's length |
| `Mastodon.FindEmoji` | app/mastodon.ts:72 | the first emoji with the shortcode, and none exactly when no emoji has it |
| `Mastodon.FormatContent` | app/mastodon.ts:66-77 | without an emoji list, or with an empty one, the content is returned unchanged; otherwise it is `ReplaceEmoji` of the content with that list, the emoji rewrite described by the lemmas below |
| `Mastodon.ReplaceEmojiStep` | app/mastodon.ts:76 | where no `:name:` starts, the character is kept and the scan moves on by one |
| `Mastodon.ReplaceEmojiPlain` | app/mastodon.ts:76 | text without a colon is copied unchanged and the scan goes on after it |
| `Mastodon.ReplaceEmojiUnmatched` | app/mastodon.ts:66-77 | with no emoji whose shortcode `\w+` can match (an empty list included) the text is unchanged |
| `Mastodon.ReplaceEmojiKnown` | app/mastodon.ts:69-76 | a known `:name:` becomes `<img class="emoji" src=static_url alt=name/>` of the first matching emoji and the scan resumes after it |
| `Mastodon.ReplaceEmojiUnknown` | app/mastodon.ts:73-76 | an unknown `:name:` is kept and its closing colon is consumed |
| `Mastodon.NormaliseStatus` | app/mastodon.ts:34-90 | content fields from the boosted status when present; `isReblog` exactly when boosted; `isReply` exactly for a non-empty reply id; image URLs or absent when none; the first video or gifv as a raw video; no music; tag names in order |
| `Mastodon.FetchMastodonPosts` | app/mastodon.ts:3-96 | empty when the request fails or is not ok; otherwise min(length, 30) normalised statuses, in order |
| `GithubRepo.CleanRepo` | server/api/github-repo.get.ts:15 | the result is the input without a prefix of length 0, 18 or 19 and without 0 or 1 final characters; a string with neither prefix nor trailing slash is unchanged |
| `GithubRepo.StripGithubPrefixOf` | server/api/github-repo.get.ts:15 | `https://github.com/` and `http://github.com/` are removed from the front |
| `GithubRepo.StripTrailingSlashOf` | server/api/github-repo.get.ts:15 | exactly one final `/` is removed, whatever precedes it; a text not ending in `/` is kept |
| `GithubRepo.CleanRepoOfUrl` | server/api/github-repo.get.ts:14-15 | any path followed by `/`, with either prefix or none, loses exactly that one slash; a path not ending in `/` is cleaned to itself |
| `GithubRepo.CleanRepoWithPrefix` | server/api/github-repo.get.ts:15 | after either GitHub prefix, the remainder loses exactly one trailing slash and is otherwise kept |
| `GithubRepo.CleanRepoDoubleSlash` | server/api/github-repo.get.ts:15 | of several trailing slashes only the last is removed (`a//` becomes `a/`) |
| `GithubRepo.Project` | server/api/github-repo.get.ts:31-36 | the reply has exactly name, description, url and stars, from full_name, description, html_url and stargazers_count |
| `GithubRepo.ProjectIgnoresOtherFields` | server/api/github-repo.get.ts:30-36 | no other field of the upstream record reaches the reply |
| `GithubRepo.Respond` | server/api/github-repo.get.ts:22-44 | success gives the projection; failure gives the upstream status if truthy else 500, and the upstream status text if truthy else "GitHub API Error" |
| `GithubRepo.Handle` | server/api/github-repo.get.ts:8-45 | a missing, empty or non-string `repo` gives 400 "Missing repo parameter"; otherwise GitHub is asked for the cleaned name |

## Findings

| source | as written | input that shows it | evidently intended | confidence | as-written member | corrected member |
|---|---|---|---|---|---|---|
| app/utils/index.ts:13-18 | both ellipsis markers are `Infinity`, so `new Set` drops the second one | `genPageArr(10, 20, 2)` gives `1, …, 8, 9, 10, 11, 12, 20` | `1, …, 8, 9, 10, 11, 12, …, 20`: every gap between shown pages is marked | medium; not executed | `PageStrip.StripHidesRightGap` | `PageStrip.GenPageArrMarked` |

## Left out

- HTTP requests, `response.json()`, headers, tokens from the environment, the Cache-Control header and `console.error`: each normaliser takes the decoded response (or `Failed`) as input.
- The Nuxt/Vue reactive runtime (`computed`, `ref`, `toValue`, `useAppConfig`, `useRoute`): state is explicit and derived values are functions recomputed on each read; the application-wide `perPage` setting is a constructor argument.
- `useRouteQuery` is not part of this model: a bound page is taken to be `transformPage` of the last value written under the query name, or of `initialPage` when the URL has none, and a write to the history is modelled as an update of the query map plus the navigation mode returned.
- Query values that are arrays or `null` are not modelled; a query value is a string.
- `Number(val)`: only an optional `-` followed by decimal digits is read as a number; whitespace, `+`, exponents, hexadecimal and fractional strings are treated as not a number, and so are fractional pages (the source would accept a fractional page in range).
- Pagination.Paginator.constructor: a `perPage` of 0 or below is excluded, because the source then divides by zero or by a negative number in floating point (`Infinity`, `NaN`).
- `genPageArr` takes integer arguments only; fractional JavaScript numbers are not modelled.
- `JSON.parse` of a website extension is a parameter returning the three fields or nothing; a parsed value that lacks `title` or `site` is not modelled.
- An exception thrown inside the per-item mapping of talks or statuses (an item that is `null`) is folded into `Failed` of the whole response, not modelled per item.
- The error message built from `data.msg` and from the Mastodon status code is only logged and is not modelled.
- The Mastodon instance/user-id guard tests two non-empty constants and never fires; the request URL and its tag filter are not modelled.
- String lengths are counted in characters, not in UTF-16 code units (`extension.length === 11`).
- Record properties that no normaliser sets (a video's `ratio`, a talk's `location`, the music player settings, the Mastodon item's `website`) are not carried in the datatypes.
- Upstream JSON values are a flat datatype; nested arrays and objects are not inspected.
- blog.config.ts, app/creativity.ts, app/sponsor.ts and app/types/twikoo.d.ts are static data, configuration or foreign declarations and are not part of this model.
