# Google Maps lead scraper: verified model of the scraping and validation core

This project is a Dafny model of the self-contained logic inside `main.py` of
a Google Maps lead scraper. The browser, HTTP, database and Flask calls are
replaced by oracles or parameters. What remains is pure functions over strings
and sequences, with their properties proved:

- **Field extraction** (`extract_data`). One field read appends exactly one
  value: the rendered text, or the sentinel `"N/A"`.
- **Listing discovery.** This is the stall-detection loop of `scrape_data`. The
  page is a sequence of polls. Each poll is a wait that timed out, or the list of
  place anchors rendered at that moment. The loop returns the parents of the
  first `total` anchors once there are enough. It returns the anchors themselves
  once their count stops changing. Otherwise it records the count and scrolls
  again.
- **Per-listing assembly.** The body of the loop over listings covers six
  `extract_data` calls and the shared `try` block. That block normalises the
  review-count and rating strings and derives the three "Yes"/"No" commerce
  flags. The body ends with the opening-hours read. The twelve per-field lists
  are modelled as written, including how their lengths drift when the `try`
  block fails part-way.
- **Table and deduplication.** The columns become rows only when they all have
  the same length, because the frame constructor raises otherwise. The rows are
  then deduplicated on (Names, Phone Number, Address), keeping the first
  occurrence.
- **Form validation.** This covers the early-return checks of registration,
  password reset and the telephony-configuration form. It includes Python's
  `re.match` of the email pattern `^[\w\.-]+@[\w\.-]+\.\w+$`.

Modules: `Options` (optional values), `Strings` (`str.replace` and substring
containment, with reference definitions), `Extraction`, `Pagination`, `Listing`,
`Dataset`, `Forms`.

Behaviour of `main.py` that the model keeps as written:

- The info block at main.py:106-120 is not atomic. A fault at line 107 leaves
  both review lists one entry short. A fault at line 110 leaves only the rating
  list short, because line 108 has already appended the review count. A fault
  at line 114 gives `Store Shopping` two entries for one listing. A fault at
  line 115 gives both `Store Shopping` and `In Store Pickup` two entries. In
  each of these cases the frame constructor then raises, unless a later
  opening-hours read aborts the scrape first (`Dataset.ScrapeMisalignedIff`).
- The opening-hours read at line 122 lies outside any `try`. An absent element
  gives `""`, but a read that raises aborts `scrape_data` (`ListingRaised`).
- `scrape_data` adds no placeholder row: the table holds only scraped listings.
- `dropna(axis=1, how='all')` at line 135 drops only columns that are entirely
  NaN. Every value here is a string, so it removes nothing when the table has
  at least one row. When it has no rows, every column is vacuously all-NaN and
  pandas drops all twelve.

## Model

| member | source | states |
|---|---|---|
| Extraction.ExtractData | main.py:41-50 | every path appends exactly one value and keeps the earlier ones; the value is the element's text when it is rendered and read, and "N/A" when it is absent or the lookup raises |
| Pagination.LoopStep | main.py:72-81 | a pass scrolls again exactly when the count is below `total` and differs from the previous count, and then records that count; when it stops, the handles are over the first min(total, count) anchors, at most `total` of them |
| Pagination.Paginate | main.py:68-81 | whenever the loop returns listings, it returns at most `total` handles |
| Pagination.PaginateStopsAtFirstStall | main.py:68-81 | the loop ends at the first poll that does not rescroll: the wait timing out there aborts, a count of at least `total` gives the parents of the first `total` anchors, and an unchanged count gives every anchor found |
| Pagination.PaginateRunsOut | main.py:69-81 | while every poll rescrolls, the loop has not ended and holds the last count as `previously_counted` |
| Pagination.StalledCountReturnsAllFound | main.py:76-80 | two consecutive polls seeing the same count C below `total` make the loop return exactly C handles, not `total` |
| Strings.Replace | main.py:108 | `str.replace` with a one-character pattern removes every occurrence of it when the replacement does not contain it, and introduces no characters besides the input's and the replacement's |
| Strings.ContainsIffOccurs | main.py:113-115 | the `in` test on strings holds exactly when the keyword occurs as a contiguous substring at some position |
| Listing.ReviewCountDropsOnlyPunctuation | main.py:107-108 | the normalised review count is the input with exactly `(`, `)` and `,` removed and every other character kept in order, so it holds none of the three |
| Listing.ReviewCountIdempotent | main.py:108 | normalising a review count twice gives the same string as normalising it once |
| Listing.RatingDropsSpacesAndDotsCommas | main.py:110-111 | the normalised rating is the input without spaces with each `,` turned into `.`; its length is the input's minus the number of spaces; it holds no space and no comma |
| Listing.RatingIdempotent | main.py:111 | normalising a rating twice gives the same string as normalising it once |
| Listing.Flag | main.py:113-115 | a flag is "Yes" exactly when the info text contains the keyword as a substring, and "No" exactly when it does not |
| Listing.FlagIsCaseSensitive | main.py:113 | "In-store shopping" yields "Yes" for `shop`, "Shopping" yields "No" |
| Listing.MissingReviewCountRecordsEmpty | main.py:107-108 | an absent review-count element records the empty string |
| Listing.MissingRatingRecordsEmpty | main.py:110-111 | an absent rating element records the empty string whenever the review-count read before it did not raise |
| Listing.StoreInfoBlock | main.py:106-120 | each list receives exactly the appends made before the first read that raises, plus one "No" per flag list from the `except` branch: a fault at 107 leaves both review lists without an entry, a fault at 110 only the rating list, `Store Shopping` gets two entries after a fault at 114 or 115, `In Store Pickup` two after a fault at 115; the other lists are untouched |
| Listing.StoreInfoBlockAlignedIff | main.py:106-120 | the five lists of the block grow in step exactly when the block completes or fails at its first info read |
| Listing.ProcessListing | main.py:98-123 | once the listing is open, it aborts the scrape exactly when the opening-hours read raises; otherwise each `extract_data` list and the opening-hours list grow by one with that listing's value, and the five lists of the try block receive exactly what the block appends |
| Listing.ProcessListingStoresBlock | main.py:106-120 | a listing whose try block completes or fails at its first info read adds exactly one entry to each of the five block lists: the normalised review count and rating ("" when absent), and each flag's "Yes"/"No" when the block completes, "No" otherwise |
| Listing.ListingAlignment | main.py:98-123 | one listing keeps aligned lists aligned exactly when its try block completes or fails at the first info read, and never repairs an earlier misalignment |
| Listing.ProcessListings | main.py:83-123 | the listings are processed in order; the run aborts exactly when some opening-hours read raises; otherwise the name list grows by exactly the number of listings |
| Listing.ProcessListingsRecordsEveryListing | main.py:83-103 | each `extract_data` list ends with exactly the values read for the listings, in discovery order, after what it held before |
| Listing.ProcessListingsRecordsHours | main.py:83-123 | the opening-hours list ends with each listing's hours in discovery order, "" for an absent element, after what it held before |
| Listing.ProcessListingsRecordsBlock | main.py:83-120 | when every try block completes or fails at its first info read, each of the five block lists ends with exactly one entry per listing, in discovery order |
| Listing.MisalignmentPersists | main.py:83-123 | once the per-field lists have drifted apart, no later listing brings them back to equal lengths |
| Listing.ProcessListingsAlignedIff | main.py:83-123 | from aligned lists, all twelve lists end with equal lengths exactly when no listing's try block failed part-way; lists that are already misaligned stay misaligned |
| Dataset.Frame | main.py:126-132 | a table is built exactly when all twelve columns have equal length, one row per position, with the key of row k taken from position k of the name, phone and address columns |
| Dataset.FrameKeepsColumns | main.py:126-132 | reading the table back column by column gives exactly the twelve lists it was built from, so row k holds the k-th entry of every list under the right column name |
| Dataset.FrameOfColumns | main.py:126-132 | every table is the frame of its own columns, so building is the inverse of reading columns back |
| Dataset.DropDuplicates | main.py:134 | the result has no two rows with the same (Names, Phone Number, Address), covers exactly the keys of the input, and is no longer than it |
| Dataset.DropDuplicatesKeepsFirstOccurrences | main.py:134 | the result is the input restricted to the first row of each key, in input order: its positions increase and are exactly the rows whose key no earlier row carries |
| Dataset.DropDuplicatesOfDistinct | main.py:134 | rows whose keys are already distinct pass through unchanged |
| Dataset.DropDuplicatesIdempotent | main.py:134 | deduplicating twice gives the same rows as deduplicating once |
| Dataset.ScrapeData | main.py:52-136 | a completed scrape yields at most `total` rows with pairwise distinct keys |
| Dataset.ScrapeMisalignedIff | main.py:106-132 | once listings are found, the table fails to build exactly when no opening-hours read raised but some listing's try block failed part-way |
| Forms.EmailShapedIffInLanguage | main.py:364 | scanning for the first `@` and the last `.` after it decides exactly the language `[\w\.-]+@[\w\.-]+\.\w+` |
| Forms.EmailMatches | main.py:364-365 | the email check succeeds exactly when the address is in the pattern's language, or is such an address followed by one final newline (Python's `$`) |
| Forms.ValidateRegistration | main.py:358-375 | each error is returned exactly when every earlier check passed and its own failed (missing field, email pattern, mismatch, length below 8); a form is accepted exactly when all four checks pass |
| Forms.RegistrationMessageIdentifiesError | main.py:358-375 | the four registration rejections render four different non-empty messages, so the message names the failed check |
| Forms.ValidatePasswordReset | main.py:477-489 | same ordering over old/new/confirm: missing field, mismatch, new password shorter than 8; accepted exactly when all pass |
| Forms.ResetMessageIdentifiesError | main.py:477-489 | the three reset rejections flash three different non-empty messages |
| Forms.PasswordRulesAgree | main.py:482-489 | once the other fields pass, registration and reset accept exactly the same password/confirmation pairs |
| Forms.SubmitTwilioConfig | main.py:150-170 | a missing JSON object takes the exception path; otherwise the request is rejected exactly when the account SID, auth token or phone number is missing or empty, and a stored configuration copies those three values and the customer number, which is not checked |

## Left out

- Browser automation is left out: the launch, navigation, typing, scrolling,
  clicks, per-listing waits and timeouts (main.py:58-66, 84-85, 143). The page
  is an oracle. Pagination sees one poll per pass. Each listing is a record of
  read outcomes, and each of the three info reads at lines 113-115 is its own
  outcome.
- Listing.ProcessListing: assumes the `listing.click()` and the
  `wait_for_selector` for the title at main.py:84-85 succeed. Both lie outside
  any `try`, so a failure there aborts `scrape_data` just like a raising
  opening-hours read. A listing page has no outcome for that failure, because
  it happens before any field is read.
- The anchor queries of one pass (counts at lines 72 and 77, lists at lines 73
  and 79) are modelled as one observation per pass.
- The pagination loop is unbounded in the source. A run that never settles is
  reported as `StillGrowing` when the given polls run out.
- Pagination.Paginate: `total` is a natural number. Python's negative-index
  slicing for a negative `total` is not modelled; the only caller passes 10.
- Only the frame constructor's length check is modelled. The rest of pandas is
  left out: `dropna(axis=1, how='all')`, CSV writing and printing (lines
  135-142). With string-only columns the NaN-based drop removes nothing, except
  on a table with no rows, where it drops every column; the model reports that
  case as `Scraped([])` with no column structure.
- The email pattern reads `\w` as ASCII letters, digits and `_`. Python's
  Unicode `\w` also accepts non-ASCII letters and digits. The behaviour of `$`
  before a final newline is modelled.
- `make_call` is a network client and is left out. It covers the payload,
  environment lookups, the HTTP POST and the error dictionary (lines 177-232).
- Flask routing, sessions, redirects, templates and flash messages are left
  out. So are the PostgreSQL and SQLAlchemy queries and werkzeug password
  hashing (lines 254-552). This includes the login check of `resetPassword` at
  line 460, its GET branch, and the search-term check of `query`.
- Non-string JSON values in the telephony form (numbers, booleans) are not
  modelled; each field is a string or absent.
- Webhook correlation, transcript parsing, the criteria judgment and the
  qualified-lead cache have no code in `main.py`, so nothing of them is
  modelled.
- The diagnostic `print` calls in `extract_data` (main.py:49) and in the
  `except` branch of the info block (main.py:117) are left out. They write to
  standard output only and change no list.
