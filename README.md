# LinkedIn people-search record extractor, in Dafny

This project models the record extractor of a small LinkedIn people-search
scraper: `LinkedInScraper.extract_profile_data`. The method receives the
markup of the search-results list, finds the result items
(`li.pserp-layout__profile-result-list-item`) and keeps the first
`number_of_results` of them. It then turns each item into a flat
eight-column record: first name, last name, profile URL, image URL,
profession, location, company and education. Inside a `try` block per item,
an item whose title is missing or blank raises and is skipped. Every other
field falls back to `""` on its own.

HTML parsing is done by a library and is not modelled. A matched item is the
datatype `Profile.Item`. It holds what the parser's lookups return for that
item: the stripped text of the title, subtitle and location nodes; the
`href` of the title's nearest enclosing link; the ghost-marked `img` with its
`src` and `data-ghost-url`; and the texts of the entity-list spans, in
document order. `None` stands for a node the lookup did not find.

Modules:

- `Wrappers`: `Option` and `Result`.
- `PyStr`: the Python string built-ins the extractor uses. These are
  `str.split()` (splits on runs of Python whitespace, as `str.isspace`
  defines it), `" ".join` and `split(',')[0]`.
- `Profile`: the item and record datatypes, one function per field
  fallback, the per-item specification `ProfileOf`, and the `try` body as
  the method `ExtractProfile`. That method reassigns the first and last
  name step by step, as the source does.
- `LinkedInScraper`: the loop `ExtractProfileData`, which works over the
  truncated item list with a `seq` accumulator. It is proved equal to the
  specification function `ExtractAll`. The lemmas about truncation,
  document order and failure isolation live here too.

Behaviour kept as the code has it:

- A one-word title gives first name = last name = that word. The code
  assigns both names from the same one-word list. This looks accidental,
  but it is modelled as written and stated in `Profile.NameSplitFaithful`
  and `Profile.OneWordName`.
- An empty `src` attribute falls through to `data-ghost-url`, because Python's
  `or` treats `""` as false. A present but empty `data-ghost-url` is
  returned as `""`.
- `number_of_results` follows Python slice semantics, including the
  negative case: `items[:-k]` drops the last `k` items. The bound
  "at most `number_of_results` records" therefore holds only for a
  non-negative count. A negative count is modelled as the code treats it,
  not excluded.
- The education lookup calls `find_all('span', 'entity-list-meta__entities-list')`
  with the class as the second positional argument. The parser reads a
  string there as a class filter, so it matches the same spans as the
  `class_=` lookup. Both are the one `spans` field.

## Model

| member | source | states |
|---|---|---|
| `PyStr.Split` | linkedin_scraper.py:70 | every word `split()` returns is non-empty and contains no whitespace |
| `PyStr.SplitEmptyIffBlank` | linkedin_scraper.py:70-71 | `split()` returns no word exactly when the title is empty or all whitespace (the case in which `title[0]` raises) |
| `PyStr.SplitJoinRoundTrip` | linkedin_scraper.py:70-76 | words joined by single spaces split back into the same words |
| `PyStr.SplitKeepsNonWhitespace` | linkedin_scraper.py:70 | the words, concatenated, are exactly the non-whitespace characters of the string, in order |
| `PyStr.SplitToken` | linkedin_scraper.py:70-72 | a non-empty string without whitespace splits into itself alone |
| `PyStr.SplitAtWhitespace` | linkedin_scraper.py:70 | `split()` cuts at every whitespace character: the words of `a + c + b`, for a whitespace `c`, are the words of `a` followed by those of `b`; with `SplitToken` and the empty string this fixes the words of every string |
| `PyStr.AsciiWhitespace` | linkedin_scraper.py:70 | the whitespace `split()` cuts at (`IsWhitespace`, Python's `str.isspace`): among ASCII exactly tab, line feed, vertical tab, form feed, carriage return, the four information separators and space; also the no-break space U+00A0 |
| `PyStr.JoinShape` | linkedin_scraper.py:76 | `sep.join(parts)` (`Join`) starts with the first part and is as long as the parts plus one separator per gap |
| `PyStr.BeforeFirstComma` | linkedin_scraper.py:99-100 | `s.split(',')[0]` is a prefix of `s`, has no comma, and is all of `s` or is followed by a comma |
| `PyStr.BeforeFirstCommaUnique` | linkedin_scraper.py:99-100 | those three properties determine `split(',')[0]` uniquely |
| `Profile.NameOf` | linkedin_scraper.py:71-77 | the name rule: the last name is the final word; one word is both names; with two or more words first name, a space and last name make the words joined by single spaces |
| `Profile.ProfileOf` | linkedin_scraper.py:68-112 | the per-item outcome fails only with the two title errors, and with `TitleNotFound` exactly when the title node is missing |
| `Profile.ProfileUrl` | linkedin_scraper.py:80-81 | the profile URL is the enclosing link's `href` when there is one, otherwise `""` |
| `Profile.ImageUrl` | linkedin_scraper.py:84-88 | the image URL comes from `src` or `data-ghost-url` or is `""`; a non-empty `src` wins; with no or empty `src` it is the ghost URL when present, otherwise `""`; no ghost-marked image gives `""` |
| `Profile.TextOr` | linkedin_scraper.py:90-94 | subtitle and location are the node's stripped text when the node exists, otherwise `""` |
| `Profile.Company` | linkedin_scraper.py:96-97 | company is the first entity-list span's text, or `""` when there are no spans |
| `Profile.Education` | linkedin_scraper.py:99-100 | education never contains a comma; it is `""` with fewer than two spans, otherwise the second span's text up to its first comma |
| `Profile.ExtractProfile` | linkedin_scraper.py:68-112 | the step-by-step `try` body yields exactly the per-item specification, and yields a record exactly when the title node exists and is not blank |
| `Profile.SkippedIff` | linkedin_scraper.py:69-71 | an item fails exactly when its title node is missing or its title has no words; a missing node is the `get_text`-on-`None` failure |
| `Profile.NameSplitFaithful` | linkedin_scraper.py:70-77 | the last name is the final word and contains no whitespace; with two or more words the first name is all the other words joined by single spaces, first + " " + last is all the words so joined, and both split back into those words; one word is both names |
| `Profile.MissingFieldsFallBack` | linkedin_scraper.py:79-100 | each of the six non-name fields of a succeeding item is its own fallback applied to its own node and nothing else, so a missing link, image, subtitle, location or span empties only its own field and never makes the item fail; one span gives company = that span and education = `""` |
| `Profile.NamesDependOnTitleOnly` | linkedin_scraper.py:69-77 | whether an item succeeds and the names it gets depend on its title alone |
| `Profile.TwoWordName` | linkedin_scraper.py:70-72 | "Jane Doe" gives first name "Jane", last name "Doe" |
| `Profile.ThreeWordName` | linkedin_scraper.py:70-77 | "Jane Q Doe" gives first name "Jane Q", last name "Doe" |
| `Profile.OneWordName` | linkedin_scraper.py:70-72 | "Madonna" gives first name and last name "Madonna" |
| `LinkedInScraper.SliceStop` | linkedin_scraper.py:64 | `[:number_of_results]` keeps at most that many items when the count is non-negative, and drops the last `-number_of_results` items when it is negative |
| `LinkedInScraper.ExtractAll` | linkedin_scraper.py:66-118 | the extractor never returns more records than it examines items |
| `LinkedInScraper.ExtractProfileData` | linkedin_scraper.py:61-118 | the loop returns the specification's records for the truncated item list; at most as many records as matched items and, for a non-negative count, at most `number_of_results` |
| `LinkedInScraper.SourceIndices` | linkedin_scraper.py:67-113 | the positions of the items whose records are kept are in range, strictly increasing, and include every item that succeeds |
| `LinkedInScraper.ExtractAllInDocumentOrder` | linkedin_scraper.py:67-113 | record k is the record of the item at the k-th kept position: the output is the succeeding items' records, in document order |
| `LinkedInScraper.ExtractAllAppend` | linkedin_scraper.py:67-116 | the result over two consecutive stretches of items is the two results, one after the other |
| `LinkedInScraper.ItemAffectsOnlyItsOwnRecord` | linkedin_scraper.py:67-116 | a failing item removes only its own record and a succeeding one adds only its own, wherever it stands among its siblings |
| `LinkedInScraper.AllExtractedIff` | linkedin_scraper.py:67-116 | every examined item yields a record exactly when every one is well formed (its title node exists and is not blank) |
| `LinkedInScraper.AllExtractedInOrder` | linkedin_scraper.py:67-113 | when every examined item yields a record, record k is item k's record |
| `LinkedInScraper.WellFormedItemsAllExtracted` | linkedin_scraper.py:64-118 | with K well-formed items and a count N the result has exactly min(K, N) records, those of the first items in order |
| `LinkedInScraper.FailedItemNotReplaced` | linkedin_scraper.py:64-116 | a failing item among the first N leaves fewer than N records, whether or not there are more than N matched items; no later item takes its place |
| `LinkedInScraper.LaterItemsNeverExamined` | linkedin_scraper.py:64 | items after the first N never affect the result |

## Left out

- Browser driving (`__init__`, `open_page`, `interact_with_element`,
  `get_element_html`, `close`, linkedin_scraper.py:20-59, 129-135): browser
  and network I/O with waits and timeouts. `number_of_results`, which
  `__init__` stores, is a parameter of `ExtractProfileData`.
- HTML parsing and the parser's `find`, `find_all`, `find_parent`, `get` and
  `get_text(strip=True)` (linkedin_scraper.py:63-64, 69, 80, 84, 90-100). This
  is a foreign library. Their results are the fields of `Profile.Item`, taken
  as given. Every tag the parser returns counts as true in a condition, so
  `if image_tag` and the like only test for a missing node.
- CSV export `export_to_csv` (linkedin_scraper.py:120-127): file I/O through a
  library. The record's field order is the column order of the dictionary
  the loop builds, but the file itself is not modelled.
- Logging (linkedin_scraper.py:17, 114, 116 and the driver methods): side
  effects only. A failed item is dropped, and its `ExtractionError` says why.
- The script entry point, the interactive prompts and the selector
  constants (linkedin_scraper.py:137-178).
- Exceptions other than the two the title can raise. None of the other
  lookups can raise on the values an `Item` holds.
