# pixiv.py in Dafny

A model of the `Pixiv` class of pixiv.py, a console downloader for the
illustration site Pixiv that fetches records through a mirror API.

The model covers the four search modes:

- by illustration id;
- by member (illustrator), newest works first;
- by leaderboard (eight rank modes);
- by tags, with a popularity floor on the bookmark count.

It also covers the pieces those searches share:

- the page-count arithmetic for a requested quantity;
- the rewriting of image URLs to the proxy host;
- the title sanitiser;
- the turning of one illustration record into (url, path) download pairs;
- the three parsers that turn console tokens into a search call.

The network is a parameter. A search sees the API's answer as a sequence of
pages, `pages: seq<seq<Illust>>`, and every page past the end is empty, as
the API reports exhaustion. A round's outcome (`Engine.Round`) records:

- which request parameters were used;
- which records were accepted;
- the download pairs handed to `save`;
- how many page requests were sent;
- whether the "only found N illustration(s)" warning is printed.

Modules:

- `Text`: the `\d+` test, `int` of a digit string, `str` of a number, `zfill` and `join`.
- `Quota`: `get_page_num`.
- `Resolver`: `to_local`, the sanitiser and `get_io_pairs`.
- `RankMode`: `rank_modes` and the mapping to the API's ranking tokens.
- `Engine`: the by-id, by-member and by-rank searches and their shared page loop.
- `TagSearch`: the `while not quit` loop of `search_by_tags`.
- `Commands`: `parse_command_member`, `parse_command_rank` and `parse_command_tags`.

The page loops are methods with loop invariants. Each is proved against a
specification function: `Engine.Gathered` for the member and rank loop, and
`TagSearch.Popular`, `Scanned` and `FirstStopAt` for the tag loop.

## Model

| member | source | states |
|---|---|---|
| Quota.GetPageNum | pixiv.py:88-106 | 0 exactly when the quantity is below 1 or above 100; otherwise the least n with (n-1)·30 < quantity ≤ n·30, never more than 4 |
| Quota.PageNumIsCeiling | pixiv.py:105-106 | any m with (m-1)·30 < quantity ≤ m·30 is the page count: it is the ceiling of quantity/30 |
| Quota.PageNumExamples | pixiv.py:97-106 | 0, -3 and 101 give no pages; 1 and 30 give 1; 31 and 60 give 2; 61 gives 3; 100 gives 4 |
| Quota.RemainingQuotaPositive | pixiv.py:293-297 | on every page the loops visit, at least one item of the quota is still wanted |
| Text.NatToString | pixiv.py:209 | `str(n)` is a non-empty digit string that `int` reads back as n, with no leading zero unless n is 0 |
| Text.ParseDigitsZero | pixiv.py:429-430 | `int` of a digit string is 0 exactly when every digit is `0` |
| Text.NatToStringInjective | pixiv.py:209 | different ids have different spellings |
| Text.NatToStringShort | pixiv.py:222 | numbers below 1000 take at most three digits |
| Text.LeadingZerosValue | pixiv.py:222 | zeros added on the left keep a digit string's value |
| Text.ZFill | pixiv.py:222 | `zfill(width)` keeps the string as a suffix, pads with '0' only, and reaches `width` when shorter |
| Text.ZFillValue | pixiv.py:222 | padding a digit string keeps it a digit string with the same value |
| Text.CanonicalSpelling | pixiv.py:429-430 | a digit string without a leading zero is the spelling of its own value |
| Text.DigitTokenSpelling | pixiv.py:429-430 | every `\d+` token is the spelling of `int(token)`, left-padded with zeros to the token's length |
| Text.Join | pixiv.py:376 | joining one tag gives that tag; joining none gives the empty word |
| Text.JoinAppend | pixiv.py:376 | joining one more tag appends a space and that tag to the search word |
| Resolver.ToLocalKeepsUnmatchedPrefix | pixiv.py:85 | the part of a url before the first match of `i.pximg.net` (each `.` any character but a newline) is copied unchanged |
| Resolver.ToLocalLength | pixiv.py:85 | rewriting never shortens a url, and it lengthens it by a whole number of host replacements (6 characters each) |
| Resolver.ToLocalHostAtStart | pixiv.py:85 | a url that starts with `i.pximg.net` has that host replaced by `proxy.pixivel.moe` and the rest rewritten |
| Resolver.ToLocalWithoutMatch | pixiv.py:85 | a url with no match is returned unchanged |
| Resolver.ToLocalRewritesHost | pixiv.py:85 | `https://i.pximg.net` + rest becomes `https://proxy.pixivel.moe` + the rewritten rest |
| Resolver.SanitizeTitle | pixiv.py:202 | same length; each of `\| / . * ? " < >` becomes a space and every other character stays; the result has none of them |
| Resolver.SanitizeIdempotent | pixiv.py:202 | sanitising twice equals sanitising once |
| Resolver.SanitizeKeepsCleanTitle | pixiv.py:202 | a title without those characters is unchanged |
| Resolver.PageFileName | pixiv.py:221-222 | a page file name is at least seven characters long and ends in `.png` |
| Resolver.PageFileNameValue | pixiv.py:221-222 | the part before `.png` is digits that read back as the page number |
| Resolver.PageFileNameWidth | pixiv.py:221-222 | pages 1 to 999 get exactly three digits |
| Resolver.PageFileNamesDistinct | pixiv.py:221-222 | different pages get different file names |
| Resolver.PagePathsDistinct | pixiv.py:221-222 | different pages of one directory get different paths |
| Resolver.LocalUrls | pixiv.py:214-215 | one rewritten url per page, in page order |
| Resolver.PagePaths | pixiv.py:221-222 | path i of a directory is the directory joined with the file name of page i+1 |
| Resolver.Zip | pixiv.py:224 | `zip` pairs the two lists index by index, as long as the shorter one |
| Resolver.GetIoPairs | pixiv.py:180-226 | no pairs for an empty or invisible record; one pair `outputs\<title>-<id>.png` for a single-page record; otherwise one pair per page, in order, at `outputs\<title>-<id>\<NNN>.png`, all urls rewritten to the proxy |
| Resolver.IoPairPathsDistinct | pixiv.py:203-224 | no two pairs of one record share a destination path |
| Resolver.MultiPagePathsDistinct | pixiv.py:213-224 | no two pages of a multi-page record share a destination path |
| Resolver.IoPairsUnderOutputDir | pixiv.py:209-222 | every destination path lies under `outputs\` |
| Resolver.PathJoinPrefix | pixiv.py:209 | a joined path starts with the directory and the separator |
| Resolver.AllIoPairs | pixiv.py:305-306 | no records give no pairs, and a single record gives exactly its own `get_io_pairs`; with `AllIoPairsAppend` this fixes the pairs of every record list |
| Resolver.AllIoPairsAppend | pixiv.py:305-306 | the flattened pairs of two record lists are the concatenation of each list's pairs |
| RankMode.ParseRankMode | pixiv.py:328-330 | a mode is accepted exactly when it spells one of the eight rank modes, and it is then that mode |
| RankMode.ParseRankModeName | pixiv.py:328-330 | every mode's own spelling is accepted as that mode |
| RankMode.ApiToken | pixiv.py:332-335 | the ranking token is never empty |
| RankMode.ApiTokenValues | pixiv.py:332-335 | male, female and manga are sent as `day_male`, `day_female`, `day_manga`; original and rookie as `week_original`, `week_rookie`; day, week and month as themselves |
| RankMode.ApiTokenInvertible | pixiv.py:332-335 | removing the `day_`/`week_` prefix from a token gives back its mode's name |
| RankMode.ApiTokenInjective | pixiv.py:332-335 | different modes query different rankings |
| Engine.QuantityRejection | pixiv.py:97-104 | a rejected quantity is "too few" exactly when below 1 and "too many" exactly when above 100 |
| Engine.CollectPages | pixiv.py:279-299 | the page loop accepts exactly the specified prefix of every page up to the first empty one, and sends exactly the page requests it took to get there |
| Engine.GatheredWithinQuota | pixiv.py:293-299 | with pages of at most 30 items, the loop never accepts more than the quantity |
| Engine.GatheredFillsQuota | pixiv.py:293-299 | when every visited page is full, the loop accepts exactly the quantity |
| Engine.GatheredStopsAtEmptyPage | pixiv.py:290-292 | pages after the first empty one have no effect |
| Engine.GatheredAgrees | pixiv.py:290-292 | two page lists that agree up to an empty page give the same records |
| Engine.SearchById | pixiv.py:229-246 | a non-digit id is rejected; otherwise the record's pairs are saved without any page request |
| Engine.SearchByMember | pixiv.py:249-308 | in this order: a non-digit id is rejected, then an unknown member, then a quantity outside [1, 100]; otherwise the page loop's records and their pairs, with the warning exactly when fewer than the quantity were found |
| Engine.SearchByRank | pixiv.py:311-371 | an unknown mode is rejected, then a quantity outside [1, 100]; otherwise the page loop runs on the mode's API token and the given date, with no warning |
| TagSearch.Take | pixiv.py:395-403 | the kept list is a prefix of the candidates, cut at the quota |
| TagSearch.PopularAppend | pixiv.py:395-398 | filtering two runs of pages equals filtering each run and concatenating |
| TagSearch.PopularMeetsFloor | pixiv.py:397-398 | every kept record has at least `popu` bookmarks |
| TagSearch.PopularIsSubsequence | pixiv.py:395-398 | the kept records sit at strictly increasing positions of the scanned ones, in scan order |
| TagSearch.PopularIndicesExact | pixiv.py:395-398 | a scanned position is among the kept ones if and only if its record has at least `popu` bookmarks: every record meeting the floor is kept, and no other |
| TagSearch.FirstStopUnique | pixiv.py:382-405 | the number of page requests is determined by the pages, the quota and the floor |
| TagSearch.ScannedPastEnd | pixiv.py:385-390 | a page past the results adds nothing |
| TagSearch.StopsPastResults | pixiv.py:391-393 | the first page past the results always ends the search, so at most len(pages)+1 requests are sent |
| TagSearch.QuotaMetOnPage | pixiv.py:400-403 | when the quota is met on a page, the records so far are the first `quantity` candidates of the whole page |
| TagSearch.ScanPage | pixiv.py:395-403 | the inner loop leaves the first `quantity` popular records of the pages so far and reports whether the quota was met |
| TagSearch.PassOutcome | pixiv.py:391-405 | the loop ends after a page exactly when that page is short or meets the quota |
| TagSearch.PassEnds | pixiv.py:391-403 | a page that is short or meets the quota ends the search, with this page counted as the last request |
| TagSearch.PassContinues | pixiv.py:391-405 | a full page that leaves the quota unmet keeps the search going on the next page, with no page past the results reached |
| TagSearch.TagLoop | pixiv.py:378-405 | for a quantity of at least 1 the loop ends; it keeps the first `quantity` popular records of the pages it scanned and stops at the first page that is short or meets the quota |
| TagSearch.SearchByTags | pixiv.py:374-414 | a quantity below 1 is rejected; otherwise the search word is the tags joined by spaces, the result is `TagLoop`'s, and the warning is given exactly when some but too few records were kept |
| TagSearch.TagResultsMeetFloor | pixiv.py:395-398 | every kept record meets the floor and came from a scanned page |
| TagSearch.ScanNeverMeetsUnreachableQuota | pixiv.py:395-403 | with a negative quantity, or 0 when every record is kept, the inner loop never meets the quota |
| TagSearch.ScanAsWritten | pixiv.py:395-403 | as written, the inner loop keeps the earlier records as a prefix, appends at most the page, only records meeting the floor, raises `at_hand` by the number appended, and stops early only when `at_hand` equals the quantity |
| TagSearch.TagPassAsWritten | pixiv.py:382-405 | as written, one pass advances to the next page, only appends records, and leaves `quit` unset only when the page was not short |
| TagSearch.TagRunAsWritten | pixiv.py:382-405 | as written, a run of passes only appends records, and while `quit` stays unset each pass advances by exactly one page |
| TagSearch.TagZeroQuantityQuitsOnLowRecord | pixiv.py:395-403 | as written, a quantity of 0 does end the loop when the first record is below the floor: `at_hand` stays 0 |
| TagSearch.TagZeroQuantityNeverQuits | pixiv.py:378-405 | as written, for a negative quantity, or for 0 when every record on every page meets the floor, no number of passes from a state with `at_hand >= 0` leaves the loop |
| TagSearch.ScanAsWrittenTakes | pixiv.py:395-403 | as written, for a positive quantity not yet reached, the inner loop leaves the first `quantity` of the earlier records followed by the page's records meeting the floor, and stops early exactly when that many are available |
| TagSearch.PassAsWrittenStep | pixiv.py:382-405 | as written, a pass after `k` pages that have kept fewer than `quantity` records keeps the first `quantity` records meeting the floor among the first `k + 1` pages, and sets `quit` exactly when page `k` ends the search (`Stops`) |
| TagSearch.RunAsWrittenAgrees | pixiv.py:378-405 | as written, for a quantity of at least 1, when page `n - 1` is the first that ends the search, `n` passes from the initial state quit on page `n` with the first `quantity` records meeting the floor among the pages scanned, which is what `TagLoop` returns |
| Commands.ParseMember | pixiv.py:424-435 | one token gives quantity 5; two tokens with a numeral quantity give that quantity, and any other second token gives "Illegal quantity"; any other count gives "Illegal command" |
| Commands.ParseRank | pixiv.py:437-456 | nothing gives day/30; one token is a quantity if numeric, otherwise a mode; two tokens give the numeric one as the quantity and the other as the mode (the first wins when both are numeric); "Illegal command" when neither is numeric or there are more than two |
| Commands.ParseTags | pixiv.py:458-477 | nothing calls no search; otherwise the tags are a non-empty prefix of the tokens, followed by at most a numeral quantity and a numeral floor, with defaults 10 and 0 for what is absent |
| Commands.ParseTagsTagCount | pixiv.py:458-477 | the last token is read as a number exactly when it is `\d+`, and the one before it too exactly when there are three or more tokens and it is `\d+`; otherwise every token is a tag |
| Commands.ParseMemberRoundTrip | pixiv.py:424-431 | `member <id> <str(q)>` reads back as (id, q), and `member <id>` as (id, 5) |
| Commands.ModeNameNotDigits | pixiv.py:441-451 | no rank mode name is numeric, so a mode is never taken for a quantity |
| Commands.ParseRankRoundTrip | pixiv.py:437-452 | a non-numeric mode and `str(q)` read back as (mode, q) in either order, and each alone gets the other's default |
| Commands.ParseTagsRoundTrip | pixiv.py:466-472 | tags followed by `str(q)` and `str(p)` read back as (tags, q, p) |
| Commands.ParseTagsQuantityRoundTrip | pixiv.py:460-475 | tags followed by `str(q)` read back as (tags, q, 0), unless there are several tags and the last one is numeric |
| Commands.ParseTagsDefaults | pixiv.py:458-477 | tags alone read back with quantity 10 and floor 0 under the same condition |
| Commands.ZeroQuantityTagCommand | pixiv.py:460-464 | `tag miku 0` asks for zero records with floor 0 |
| Commands.PaddedQuantityTagCommand | pixiv.py:460-465 | `tag a 05` asks for five records tagged `a` with floor 0 |

## Left out

- Network I/O (`request`) is left out. On a response other than 200, `request` prints an error and returns `None`, and the caller's `.json()` on `None` (as at pixiv.py:239-242) then raises; that crash is not modelled. The API's answers are the `pages` and `record` parameters. The member lookup is the boolean `memberFound`.
- `save` and `download_image` (asynchronous downloading, writing files, the progress messages) are left out. A round ends with the pairs that would be saved. The "No image found" exit for an empty list is the empty `pairs`.
- `os.mkdir` of a multi-page record's directory is left out. Only the paths are modelled.
- `datetime.now() - timedelta(days=2)` is left out. The rank date is a parameter, and calendar arithmetic is not modelled.
- Console colours and the `hint`, `warning` and `error` output are left out. Errors are `Rejection` or `CommandError` values, and the partial-result warning is the `partial` flag. The invisible-record warning, the illustrator's-name hint and the per-page search hint are not modelled.
- `run`, `quit`, the asyncio loop and help.py are left out. `run` dispatches on the first token and hands `id` the last one, and that dispatch is not part of this model.
- Text.IsDigits: Python's `\d` also matches non-ASCII decimal digits, which `int` accepts too. The model accepts only '0' to '9'.
- Resolver.PathJoin: `os.path.join` restarts the path when the name is a drive or root path, such as a title that begins with `C:` or `\`. The model always concatenates with `\`, the Windows separator. The program runs only on Windows, because it sets a Windows event-loop policy at import.
- Resolver.SanitizeTitle: pixiv.py:202 replaces `.`, not `:`, so a title containing `:` is not made a safe Windows file name; the model follows the code.
- Resolver.Illust: the record is reduced to the fields `get_io_pairs` and the tag loop read. The source's `len(img) == 0` test for an empty record is `None`.
- Engine.SearchById: a missing record (`None`) gives no pairs. Other malformed API answers, which raise in the source, are not modelled.
- TagSearch.SearchByTags: as written, the tag search has no quantity check. Its loop never ends for a negative quantity, nor for 0 when every scanned record meets the floor (`TagZeroQuantityNeverQuits`, see Findings). For 0 it ends exactly when the first record scanned is below the floor, as with `tag miku 0 100` (`TagZeroQuantityQuitsOnLowRecord`); once a record is kept, `at_hand` never returns to 0 and the loop never ends. The model rejects every quantity below 1, these terminating ones included; the as-written functions model the loop for all quantities.

## Findings

| source | as written | input that shows it | evidently intended | confidence | as-written member | corrected member |
|---|---|---|---|---|---|---|
| pixiv.py:374-405 | `search_by_tags` has no quantity check. The loop only quits on `at_hand == quantity` after a record, or on a page shorter than `min(quantity - at_hand, 30)`. For a quantity ≤ 0 the minimum is ≤ 0, so the short-page test never holds. For a negative quantity, or 0 when every record meets the floor, `at_hand` never equals the quantity either | the console command `tag miku 0`. It parses to quantity 0 and floor 0, and bookmark counts are never negative, so the loop requests pages forever | reject a quantity below 1, as `get_page_num` does for the other modes | not executed | TagSearch.TagZeroQuantityNeverQuits | TagSearch.SearchByTags |
