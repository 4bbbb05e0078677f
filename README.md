# TrendFit site scripts in Dafny

This project models the three browser scripts of the TrendFit marketing site.

- **Policy renderer** (`js/policy.js`). It chooses a policy ("terms" or "privacy") and a language. It fetches the policy's JSON document, falling back to the English one, and normalises it into a document with default fields. It then renders the title, the meta line, the intro, the numbered sections and the contact block, or an "Unable to load policy" card.
- **Announcements renderer** (`js/announcements.js`). It fetches the announcements list and normalises each post (`safePost`). It sorts the posts pinned-first and then newest-first, and renders one card per post. The list can instead give the "No announcements yet" card or an "Unable to load announcements" card.
- **Shared navigation script** (`js/includes.js`). It marks the navigation link of the current page with `aria-current="page"`. It shows or removes the "new announcements" badge on the announcements link, using the date last seen in local storage.

The model keeps the scripts' own form:
- Normalisation, comparison and the specification of each page are functions over datatypes.
- The DOM roots and the navigation links are classes whose fields the methods update.
- Local storage is a class with one field.
- The `forEach` and `for ... of` loops are methods with loop invariants, each proved equal to its specification function.

What the browser provides enters as parameters:
- `fetch(i, url)` is the `Result<Response>` outcome of the request numbered `i` (0 for the first request, 1 for the fallback), so requesting the same URL twice can give two different outcomes;
- date parsing is a function `parse` from a string to an optional time value;
- locale date formatting is a function `localeFormat`;
- `location.pathname`, the page's `data-policy` attribute and the `lang` query parameter are plain strings.

The modules are:
- `Text`: the string built-ins.
- `Js`: JSON values, JavaScript coercions and caught exceptions.
- `Policy`, `Announcements` and `Includes`: one module per script.

## Model

| member | source | states |
|---|---|---|
| Text.LowerChar | js/policy.js:29 | the result is never an upper-case ASCII letter; the character changes exactly when it is one, and then becomes a lower-case letter |
| Text.UpperChar | js/policy.js:146 | the result is never a lower-case ASCII letter; the character changes exactly when it is one, and then becomes an upper-case letter |
| Text.CaseRoundTrip | js/policy.js:146 | upper-casing a lowered capital and lowering an upper-cased small letter give the letter back; each map is idempotent and each absorbs the other |
| Text.ToLower | js/includes.js:22 | same length, each character lowered |
| Text.ToLowerShape | js/includes.js:22 | a lowered string holds no upper-case letter, and lowering introduces no slash |
| Text.ToLowerIdempotent | js/includes.js:24-25 | lowering twice equals lowering once, so a lowered page name compares equal to a lowered href |
| Text.ContainsAt | js/policy.js:30-31 | the left-to-right `includes` scan succeeds exactly when the substring occurs at some offset |
| Text.LastSegment | js/policy.js:29 | the result is the suffix after the last slash: it is a suffix, it holds no slash, and a slash precedes it |
| Text.BeforeHash | js/includes.js:24 | the result is the prefix before the first `#`: it is a prefix, it holds no `#`, and a `#` follows it |
| Text.TrimEndPrefix | js/includes.js:94 | the result is a prefix, it does not end in a blank, and only blanks were removed |
| Text.TrimStartSuffix | js/includes.js:92 | the result is a suffix, it does not start with a blank, and only blanks were removed |
| Text.TrimSlice | js/includes.js:104 | the result occurs in the input between two all-blank margins and neither starts nor ends with a blank |
| Text.LessIrreflexive | js/includes.js:55 | no string sorts before itself |
| Text.LessTransitive | js/includes.js:71 | the string order is transitive |
| Text.LessTrichotomy | js/includes.js:71 | two strings are equal or ordered one way, never both ways |
| Text.NonEmpty | js/policy.js:57 | `filter(Boolean)` keeps only non-empty strings, keeps every non-empty string of the list, and never lengthens it |
| Text.NonEmptyAppend | js/policy.js:57 | filtering distributes over concatenation, so the kept strings stay in their order in the list |
| Text.NonEmptySingle | js/policy.js:57 | a one-element list keeps its element exactly when it is non-empty |
| Text.NatToString | js/policy.js:75 | the result is decimal digits with no leading zero |
| Text.NatToStringValue | js/policy.js:75 | the decimal digits read back as the number they were made from |
| Text.IntToString | js/policy.js:37 | the result is non-empty and starts with '-' exactly for negative numbers |
| Text.IntToStringValue | js/policy.js:37 | a non-negative number's string reads back as the number; a negative one is '-' followed by the digits of its magnitude |
| Js.Or | js/announcements.js:118-120 | `a \|\| b` is one of its operands, truthy exactly when either is, and the left one whenever that is truthy |
| Js.Prop | js/policy.js:130 | reading a property throws exactly on null or undefined, naming the key; an object's own member is read as itself, and any defined result comes from such a member |
| Js.ToStr | js/policy.js:145 | definition of `String(v)` over JSON values: "undefined", "null", "true"/"false", the decimal form of a number (Text.IntToStringValue), a string itself, the comma-join of an array with null and undefined elements empty, "[object Object]" |
| Js.FormatDate | js/policy.js:147-151 | the raw string comes back exactly when the date is invalid or renders as itself; any other result is the locale rendering |
| Js.MapAll | js/announcements.js:31 | `map` succeeds exactly when every element succeeds, result element-wise; otherwise the error is that of the first failing element |
| Policy.InferPolicyFromPath | js/policy.js:28-33 | the inferred policy, when there is one, is "terms" or "privacy" |
| Policy.FileName | js/policy.js:29 | the lower-cased last path segment: no longer than the path, holding no slash and no upper-case letter |
| Policy.InferPolicyFromFileName | js/policy.js:28-33 | "terms" exactly when the lowered file name contains "terms"; otherwise "privacy" exactly when it contains "privacy"; otherwise none |
| Policy.PolicyName | js/policy.js:13 | the `data-policy` attribute wins; otherwise the inferred policy; otherwise "privacy"; never empty |
| Policy.Lang | js/policy.js:14 | the lowered `lang` parameter, or "en" when it is missing or empty; always non-empty and lower case |
| Policy.FallbackSameAsPrimary | js/policy.js:15-16 | the fallback URL equals the primary one exactly when the language is "en" |
| Policy.Load | js/policy.js:19-39 | the primary URL is requested first (attempt 0); the English URL is requested second (attempt 1) exactly when the first request fails; the result is the outcome of the last request |
| Policy.FetchJson | js/policy.js:35-39 | a rejected request passes its error through; the body is delivered exactly when the response is ok and parses; a response that is not ok throws an Error whose message starts with "Fetch failed: " and the URL |
| Policy.TextListFrom | js/policy.js:144-145 | `arr(v).map(str)` keeps every element of an array as its string coercion, and gives the empty list otherwise |
| Policy.AsText | js/policy.js:145 | definition of `str(v)`: "" for null and undefined, otherwise `String(v)`; Policy.TextListFrom and Policy.Normalize state what it yields |
| Policy.AsList | js/policy.js:144 | definition of `arr(v)`: the elements of an array, otherwise none; Policy.TextListFrom states what it yields |
| Policy.TextList | js/policy.js:144-145 | definition of `arr(v).map(str)`; Policy.TextListFrom states that it keeps each array element as its coercion and gives [] otherwise |
| Policy.NormalizeSection | js/policy.js:134-139 | throws on a null or undefined section, naming "heading"; otherwise every field is the coerced value or its default |
| Policy.Normalize | js/policy.js:128-143 | fails exactly for a null document or a null section; the error names "version" or "heading"; otherwise every field is coerced or defaulted |
| Policy.TitleCase | js/policy.js:146 | same length; the first character is not a lower-case letter and lowers to what the input's first character lowers to; every later character is unchanged |
| Policy.TitleCaseProps | js/policy.js:146 | the result never starts with a lower-case letter, lowers to the same text as the input, leaves an already-capitalised text unchanged, and is idempotent |
| Policy.MetaTextIsFilterJoin | js/policy.js:53-57 | the meta text is the non-empty fragments among date and version, joined by the separator |
| Policy.MetaLinePresence | js/policy.js:53-58 | at most one meta paragraph; present exactly when the date or the version is non-empty |
| Policy.MetaSeparatorMojibake | js/policy.js:57 | with both fragments present, the text as written differs from the intended one and contains U+00E2 |
| Policy.HeadingFallback | js/policy.js:48-50 | the heading is the title, else the title-cased policy name |
| Policy.ParagraphsAt | js/policy.js:64-68 | the k-th paragraph shows the k-th line |
| Policy.NotesAt | js/policy.js:94-101 | the k-th muted paragraph shows the k-th note |
| Policy.SectionBoxesAt | js/policy.js:71-104 | the k-th box holds the k-th section, numbered k + 1 |
| Policy.SectionLayout | js/policy.js:72-103 | the subheading (heading or "Section n"), then the paragraphs, then one bullet list only if there are bullets, then the notes; no other list |
| Policy.SectionNumbersDistinct | js/policy.js:75 | two untitled sections at different positions get different boxes |
| Policy.NatToStringInjective | js/policy.js:75 | different numbers give different decimal strings |
| Policy.ContactBlock | js/policy.js:107-122 | the contact block appears exactly when there is a label or an address; the link shows the label, else the address; it points at the address, else at "mailto:" + label |
| Policy.HeadLayout | js/policy.js:48-61 | the head is the heading, then the meta line exactly when it is shown, then the divider |
| Policy.PolicyLayout | js/policy.js:45-122 | the page length is the sum of its parts; heading first, then the meta line if any, then a rule; a contact block ends the page exactly when a contact is shown |
| Policy.PolicyIntroLayout | js/policy.js:63-68 | the intro paragraphs follow the first rule, in order |
| Policy.PolicySectionsLayout | js/policy.js:70-104 | the section boxes follow the intro, in order |
| Policy.PageFromPrimary | js/policy.js:19-20 | when the requested language loads, the page is that document and only one URL is requested |
| Policy.PageFromFallback | js/policy.js:19-20 | when the requested language fails and English loads, both URLs were requested in that order and the page is the English document |
| Policy.EnglishRetry | js/policy.js:14-19 | with no `lang` parameter, a failed first request for the English URL is retried on the same URL, and a successful retry yields that document's page |
| Policy.PageWhenBothFail | js/policy.js:19-26 | when both loads fail, the page is one error card carrying the English load's error |
| Policy.PageIsOneElement | js/policy.js:19-26 | the page is always one element, an error card exactly when loading or normalisation failed |
| Policy.PolicyPage | js/policy.js:13-26 | definition of what the policy root holds after the script: the error card for a failed load or normalisation, else the container of the normalised document; Policy.PageFromPrimary, Policy.PageFromFallback, Policy.EnglishRetry, Policy.PageWhenBothFail and Policy.PageIsOneElement state its cases |
| Policy.RenderParagraphs | js/policy.js:64-68 | the loop builds exactly the paragraph list of the specification |
| Policy.RenderBullets | js/policy.js:84-92 | the loop builds one list item per bullet, in order |
| Policy.RenderNotes | js/policy.js:94-101 | the loop builds exactly the muted note paragraphs of the specification |
| Policy.RenderSection | js/policy.js:72-103 | the loop builds exactly the section box of the specification |
| Policy.RenderSections | js/policy.js:71-104 | the loop builds exactly the list of section boxes |
| Policy.RenderHead | js/policy.js:48-61 | heading, optional meta paragraph, rule |
| Policy.RenderContact | js/policy.js:107-122 | the contact block of the specification |
| Policy.BuildContainer | js/policy.js:45-122 | the container's children are exactly the specified page nodes |
| Policy.RenderPolicy | js/policy.js:41-126 | normalisation errors propagate and leave the root unchanged; otherwise the root shows the container |
| Policy.LoadAndRender | js/policy.js:13-26 | the root shows the specified page; the requested URLs are those of `Load` |
| Announcements.SafeLink | js/announcements.js:125 | throws on a null link, naming "label"; otherwise the label and href are coerced, defaulting to "Learn more" and "#" |
| Announcements.SafePost | js/announcements.js:116-128 | fails exactly for a null post or a null link; the error names "id" or "label"; otherwise every field is coerced or defaulted |
| Announcements.Posts | js/announcements.js:30-31 | a falsy payload gives no posts; a truthy non-array throws "map is not a function"; an array is normalised element-wise and succeeds exactly when every post does |
| Announcements.Insert | js/announcements.js:32-36 | inserting a post adds exactly one element |
| Announcements.SortPosts | js/announcements.js:32-36 | sorting keeps the number of posts |
| Announcements.InsertPermutes | js/announcements.js:32-36 | inserting adds exactly the inserted post to the multiset |
| Announcements.SortIsPermutation | js/announcements.js:30-36 | the sorted list is a permutation of the normalised posts |
| Announcements.InsertPinnedFirst | js/announcements.js:33-34 | inserting keeps every pinned post before every unpinned one |
| Announcements.SortPinnedFirst | js/announcements.js:33-34 | after sorting, no pinned post follows an unpinned one, whatever the dates |
| Announcements.CompareOrder | js/announcements.js:32-36 | with valid dates, a negative comparison means strictly before in (pin, newest) order; otherwise the second post may come first |
| Announcements.Compare | js/announcements.js:32-36 | the comparator is NaN exactly when both posts are in the same pin class and a date is invalid; across classes the pinned post comes first; within a class it is negative exactly when the first post is newer and zero exactly when the times are equal |
| Announcements.SortCompare | js/announcements.js:32-36 | as the sort reads it (NaN as 0): the first post goes strictly first exactly when it is pinned and the other is not, or both are in one class with valid dates and it is newer; it ties exactly within one class when a date is invalid or the times are equal |
| Announcements.SortCompareAntisymmetric | js/announcements.js:32-36 | swapping the two posts negates the comparison, NaN included |
| Announcements.InsertOrdered | js/announcements.js:32-36 | inserting into an ordered list keeps it ordered |
| Announcements.SortOrdered | js/announcements.js:32-36 | with valid dates, the sorted list is ordered pinned-first and then by non-increasing date |
| Announcements.SortNewestFirst | js/announcements.js:35 | with valid dates, within one pin state the dates never increase |
| Announcements.WithKeyAppend | js/announcements.js:32-36 | selecting the posts with one key distributes over concatenation |
| Announcements.InsertStable | js/announcements.js:32-36 | inserting keeps the relative order of posts that compare equal |
| Announcements.SortStable | js/announcements.js:32-36 | posts that compare equal keep their input order, as a stable sort must |
| Announcements.ParasAt | js/announcements.js:87-91 | the k-th paragraph shows the k-th body line |
| Announcements.CardsAt | js/announcements.js:48-111 | the k-th card is the card of the k-th post |
| Announcements.CardLayout | js/announcements.js:49-110 | title; "Pinned" exactly for pinned posts; date and tags as badges; one paragraph per body line; a links row exactly when there are links |
| Announcements.EmptyGivesNotice | js/announcements.js:38-44 | a falsy payload or an empty array gives exactly the "No announcements yet" card |
| Announcements.Rendered | js/announcements.js:28-113 | definition of what `renderAnnouncements(items)` puts in the root, or the exception it throws; Announcements.EmptyGivesNotice and Announcements.CardsInSortedOrder state its cases |
| Announcements.AnnouncementsPage | js/announcements.js:15-26 | definition of what the announcements root holds after the script: the error card for a failed request, a response that is not ok or a failure while rendering, else the rendered nodes; Announcements.FailureGivesErrorCard and Announcements.ShowAnnouncements state it |
| Announcements.FailureGivesErrorCard | js/announcements.js:15-26 | any failure gives exactly one error card and never the notice; a response that is not ok gives "Failed to load announcements" |
| Announcements.CardsInSortedOrder | js/announcements.js:30-111 | with posts, the page is one card per sorted post with pinned cards first |
| Announcements.RenderTags | js/announcements.js:76-83 | the loop builds one badge per tag, in order |
| Announcements.RenderBody | js/announcements.js:86-91 | the loop builds exactly the body paragraphs of the specification |
| Announcements.RenderLinks | js/announcements.js:94-105 | the loop builds one anchor per link, in order |
| Announcements.BuildCard | js/announcements.js:49-110 | the built card equals the specified card |
| Announcements.RenderCards | js/announcements.js:48-111 | the loop builds exactly the cards of the specification |
| Announcements.RenderAnnouncements | js/announcements.js:28-114 | errors propagate and leave the root unchanged; otherwise the root shows the notice or the cards |
| Announcements.ShowAnnouncements | js/announcements.js:15-26 | the root shows the specified page for every fetch outcome |
| Includes.NavLink.constructor | js/includes.js:21 | a fresh link without badge, dot or ARIA attributes |
| Includes.NavLink.MarkIfCurrent | js/includes.js:24-27 | the link's new state is `Marked` of its old state |
| Includes.NavLink.AddBadge | js/includes.js:82-96 | the link's new state is `Added` of its old state |
| Includes.NavLink.RemoveBadge | js/includes.js:98-106 | the link's new state is `Removed` of its old state |
| Includes.Hrefs | js/includes.js:21 | the hrefs of the links, in document order |
| Includes.CurrentIffSamePage | js/includes.js:22-25 | the page name is never empty, so the test is exactly "lowered href before `#` equals the page name"; the `path === ''` branch is dead |
| Includes.PageName | js/includes.js:22 | the page name is never empty and holds no slash and no upper-case letter |
| Includes.Marked | js/includes.js:25-27 | `aria-current` becomes "page" on the current link only; nothing else changes |
| Includes.MarkActiveNav | js/includes.js:20-29 | each link ends up `Marked` for the current page name, independently of the others |
| Includes.MarkAll | js/includes.js:23-28 | the loop leaves each link in the state Includes.Marked gives for its old state and the page name |
| Includes.StripNewSuffix | js/includes.js:94 | the result is a prefix of the caption and differs from it exactly when the caption ends in "(new)" in any case; then only that suffix and the blanks before it are removed, so the result does not end in a blank |
| Includes.StripNewSuffixNoOp | js/includes.js:93-94 | when the guard passes, the replacement never changes the label |
| Includes.Added | js/includes.js:82-96 | the link gets the badge class and at least one dot; href, text and `aria-current` are unchanged |
| Includes.Removed | js/includes.js:98-106 | the badge class and one dot are removed; the label becomes the trimmed text; href, text and `aria-current` are unchanged |
| Includes.AddedLabel | js/includes.js:92-95 | after adding, the label ends in "new)"; " (new)" is appended only when it was missing; one dot only |
| Includes.AddIdempotent | js/includes.js:82-96 | adding the badge twice equals adding it once |
| Includes.RemoveIdempotent | js/includes.js:98-106 | removing twice equals removing once, and no dot remains |
| Includes.LatestIsMaximum | js/includes.js:52-57 | no item date sorts after the latest; the latest is "" exactly when every date is empty; otherwise it is one of the dates |
| Includes.ItemDate | js/includes.js:54 | a non-empty date comes from an object's own `date` member, and a string date is taken as written |
| Includes.LatestOf | js/includes.js:52-56 | definition of what the scan leaves in `latest`; Includes.LatestIsMaximum states that it is the greatest date |
| Includes.LatestDate | js/includes.js:52-56 | the loop computes the latest date of the specification |
| Includes.BadgeUntouched | js/includes.js:47-57 | nothing changes exactly when there is no ok, parsed, array list holding a dated item |
| Includes.BadgeDecision | js/includes.js:46-75 | storing the date happens only on the announcements page and stores the latest date; the badge is shown only elsewhere and only when the latest date sorts after the stored one, and hidden elsewhere otherwise; any change needs an ok response whose body is an array with a non-empty latest date |
| Includes.BadgeOnAnnouncementsPage | js/includes.js:63-67 | on the announcements page, the stored date is the maximum of the dates, and the badge is removed |
| Includes.BadgeElsewhere | js/includes.js:70-75 | elsewhere, the badge is shown exactly when some date sorts after the stored one; otherwise it is removed |
| Includes.NoBadgeUntilNewer | js/includes.js:63-75 | after a visit to the announcements page, the same list shows no badge, and a later list shows one only with a strictly later date |
| Includes.AnnouncementsLink | js/includes.js:42 | the first link whose href ends in "announcements.html", or none when no link does |
| Includes.ApplyBadge | js/includes.js:46-75 | storage and the link change exactly as the decision says |
| Includes.InitBadge | js/includes.js:39-80 | without an announcements link nothing is requested or changed; otherwise only that link and the stored date change, as decided |

## Left out

- **Network I/O** (`fetch`, the `cache` option, status codes beyond `ok`): each fetch outcome is a given value.
- **Exception text:** the model carries the exception as a `Failure` value. It does not reproduce the engine's TypeError message text or `err.message` formatting. The error card shows that value.
- **Policy error message:** in `js/policy.js:24`, `err?.message || err` for an error with an empty message is modelled as the failure itself.
- **`includeFragments`** (`js/includes.js:4-17`) is not part of this model. It fetches HTML fragments and inserts them as raw markup, which is pure DOM and network I/O.
- **`setHeaderH`** and its resize listener (`js/includes.js:32-36`, `118`) are not part of this model. They read layout heights, which the model has no notion of.
- **Start-up sequencing:** the `DOMContentLoaded` handler and `requestAnimationFrame` (`js/includes.js:109-119`) only order the calls. The model provides each routine as a separate method.
- **Dates:** parsing (`new Date`) and locale formatting (`toLocaleDateString`) are the parameters `parse` and `localeFormat`. Their behaviour is not modelled.
- **Markup:**
  - Template strings written through `innerHTML` are modelled as structured nodes.
  - Font icons are not modelled.
  - The absence of HTML escaping in those templates is not modelled.
- **JSON numbers** are unbounded integers. Three number behaviours are not modelled:
  - fractional numbers and their `String` forms;
  - the exponent form `String` gives a number of magnitude 10^21 or more ("1e+21"), where Js.ToStr writes every digit;
  - the rounding `JSON.parse` applies to integers beyond 2^53.
  Such a number in a policy or announcement field, or in an announcement date, reaches the page and the badge scan as its full decimal digits.
- **Text.LowerChar**, **Text.UpperChar:** case mapping covers ASCII letters only. Unicode case mapping is not modelled.
- **Policy.RenderHead**, **Policy.HeadLayout**, **Policy.MetaNodes:** the meta paragraph joins the date and the version with the intended bullet "  •  " (Policy.MetaText), not the garbled literal at `js/policy.js:57`. The page model (also Policy.PolicyLayout, Policy.RenderPolicy and Policy.LoadAndRender) therefore shows the corrected text when a document has both a date and a version. Policy.MetaSeparatorMojibake states how the text as written differs; see Findings.
- **Text.Less:** compares code points, not UTF-16 code units, so it may order characters outside the Basic Multilingual Plane differently.
- **URL query and links:** `URLSearchParams` decoding is not modelled; the `lang` parameter is given already decoded. `a.href` URL resolution is not modelled; hrefs are kept as written.
- **Announcements.SortPosts:**
  - `Array.prototype.sort` is modelled as a stable insertion sort reading NaN as 0.
  - With an invalid date the comparator is inconsistent. The order an engine then picks is implementation-defined, and the model fixes one order.
  - The permutation and pinned-first properties hold for every input. The date-order and stability properties are proved only when every date parses.
- **Null-link guards:** the `if (!linkEl) return` guards in `addAnnouncementsBadge` and `removeAnnouncementsBadge` are not modelled, because the only caller passes a link it has found.
- **Local storage:** `localStorage` exceptions (a blocked storage) are not modelled; storage is a field that always reads and writes.
- **Badge fetch URL:** `js/includes.js:46` fetches "announcements.json" relative to the page, whereas the renderer fetches "data/announcements.json". The model takes the outcome of that request as given and does not resolve URLs.
- **Includes.MarkActiveNav**, **Includes.InitBadge:** both require the links to be distinct objects, as `querySelectorAll` returns them.
- **Features the code does not have:** the model follows the code, which has no inline Markdown formatter, no bullet grouping in announcement bodies and no `url` alias for `href`. Announcement body lines are plain paragraphs, and link fields are read only from `label` and `href`.

## Findings

| source | as written | input that shows it | evidently intended | confidence | as-written member | corrected member |
|---|---|---|---|---|---|---|
| js/policy.js:57 | the meta separator literal is the UTF-8 bytes of "•" decoded as Windows-1252 and re-encoded, so it displays as "â€¢" | a policy document whose `effectiveDate` and `version` are both non-empty | a bullet "  •  " (U+2022) between the date and the version | not executed | Policy.MetaSeparatorMojibake | Policy.MetaText |
