# LinkedIn auto-connector: the invitation loops

This project models the decision logic of the LinkedIn auto-connector, a Selenium bot that sends connection invitations. It covers two flows:

- **List flow** (`send_connection_request_to_urls`). This flow reads profile addresses from a spreadsheet column and keeps the truthy cells. It cuts the list with Python's `[:limit]` and visits each profile. On each profile it resolves the Connect control: the direct button first, then the More menu. It sends the invitation, with a personalised note when asked and without one as a fallback. A profile counts only when, afterwards, no Connect button is found.
- **Search flow** (`send_connection_request`). This flow builds a people-search address from a keyword, a location and a connection degree. It then walks the result pages. The "No free personalized invitations left" banner stops it. Each Connect control is processed in order. Three strategies in turn locate the control's profile link and name. The control counts as soon as its clicks raise nothing; there is no confirmation step. The flow moves to the next page while it is below the limit. In message mode it counts every Message control it finds and clicks nothing. The function has the same code in `update.py` and `updated.py`. The `update.py` copy also has a docstring, explanatory comments (lines 108, 116, 134, 143-163 and 202) and different blank lines. One model covers both, and the table cites whichever copy is clearer.

Each of the bot's browser interactions is an input observation. A `Step` either completes or raises a `Fault`; the fault kind matters only where the code catches one exception class and lets the others through. Each loop is a pure fold over those observations:

- a `ProfileVisit` per address;
- a `ButtonObs` per control;
- a finite, non-empty sequence of `Page`s. The Next control exists exactly when a later page exists.

Modules:

- `Options`: the optional value used by the fallback chains and for an unreadable headline.
- `Text`: Python's `split`, `replace`, `lower` and `title` on strings, restricted to ASCII case.
- `Fallback`: `Step`, the ordered first-success chain, and `robust_click`.
- `Sheet`: the column filter and `[:limit]`.
- `Naming`: note templating and first-name extraction.
- `ListMode`: the list flow.
- `SearchMode`: the search flow.
- `SearchUrl`: the search address and the degree mapping.

The code differs from a single unified description of "the bot" in several ways. The model follows the code:

- the two flows keep their own fallback orders;
- only the list flow confirms;
- the list flow's stale-element handler says "retrying" but actually moves on to the next address;
- in message mode the success log line reads a variable that was never bound. It raises `UnboundLocalError` after the increment, and that exception is swallowed. This is modelled as a `Counted` outcome with `logged = false`.

## Model

| member | source | states |
|---|---|---|
| Fallback.FirstSuccess | Linkedin-Auto-Connector/update.py:144-175 | the chosen strategy produced something, every earlier one produced nothing, and none is chosen exactly when all fail |
| Fallback.FirstSuccessIgnoresLater | Linkedin-Auto-Connector/update.py:144-175 | once a strategy succeeds, the strategies after it cannot change the outcome |
| Fallback.RobustClick | Linkedin-Auto-Connector/updated.py:106-113 | the direct click is credited iff it completes; the script click iff the direct one raised and it completes; the pointer gesture iff both raised and it completes; the click raises iff all three raise, and then with the gesture's exception |
| Fallback.StagesRun | Linkedin-Auto-Connector/updated.py:106-113 | the channels that run form a prefix of direct, script, gesture; every channel but the last one run has raised; a run shorter than three ends in a channel that completed |
| Fallback.LocateAndClick | Linkedin-Auto-Connector/updated.py:127-133 | the element is activated iff the lookup completes and some click channel completes, and then by the last channel that ran; the exception that escapes is the lookup's when it raised, else the pointer gesture's; a lookup that completes gives `robust_click`'s result |
| Fallback.FailedLookupClicksNothing | Linkedin-Auto-Connector/updated.py:127-133 | a lookup that raises never reaches `robust_click`: any click observations give the same result, the lookup's exception |
| Fallback.RobustClickUsesLastStageRun | Linkedin-Auto-Connector/updated.py:106-113 | a successful click is credited to the last channel run, and a raised click ran all three channels |
| Text.ReplaceIsJoinOfSplit | Linkedin-Auto-Connector/updated.py:168 | `replace` equals cutting at every non-overlapping occurrence and gluing the pieces with the replacement |
| Text.SplitOn | Linkedin-Auto-Connector/updated.py:165 | Python's `split` with a non-empty separator: at least one piece, and the first piece is a prefix of the string |
| Text.SplitPiecesFree | Linkedin-Auto-Connector/updated.py:168 | no piece cut out by `split` contains the separator |
| Text.SplitJoinRoundTrip | Linkedin-Auto-Connector/updated.py:168 | joining the pieces of a split with the same separator rebuilds the string |
| Text.Replace | Linkedin-Auto-Connector/updated.py:168 | Python's `replace`: a string that does not contain the pattern comes back unchanged |
| Text.SplitFirstPieceIsFirstWord | Linkedin-Auto-Connector/updated.py:165 | `split(' ')[0]` is the longest prefix without a space, ended by a space or by the end of the string |
| Text.Lower | Linkedin-Auto-Connector/update.py:256 | Python's `lower` on ASCII: the same length, each character lower-cased on its own |
| Text.TitleCase | Linkedin-Auto-Connector/update.py:149 | Python's `title` on ASCII: a character is upper-cased when the one before it is not a letter and lower-cased otherwise |
| Text.TitleCaseIdempotent | Linkedin-Auto-Connector/update.py:149 | title-casing twice is title-casing once |
| Text.TitleCaseKeepsText | Linkedin-Auto-Connector/update.py:149 | title-casing changes only letter case: the lower-cased text and the spaces are kept |
| Naming.Personalize | Linkedin-Auto-Connector/updated.py:168 | the note is the letter cut at every `{name}` and glued with the name, then cut at every `{fullName}` of that result and glued again |
| Naming.PersonalizeWithoutPlaceholders | Linkedin-Auto-Connector/updated.py:168 | a note template that mentions neither `{name}` nor `{fullName}` is sent as written |
| Naming.PersonalizeCutsAtEveryPlaceholder | Linkedin-Auto-Connector/update.py:188 | every `{name}` is replaced first, then every `{fullName}` of that result, by the same name |
| Naming.HeadlineName | Linkedin-Auto-Connector/updated.py:163-167 | the name is "there" when the headline cannot be read; otherwise it is the headline's first space-free prefix, followed by a space or by the end |
| Naming.TitledFirstWord | Linkedin-Auto-Connector/update.py:149 | the name has no space, reads as the link text's first word up to case, and is already title-cased |
| Naming.LabelOrTextName | Linkedin-Auto-Connector/update.py:167-171 | "Unknown" when both the label and the text are empty; otherwise the first word of the label when there is one, else of the text; the name has no space and is title-cased |
| Naming.UnknownIsTitled | Linkedin-Auto-Connector/update.py:171 | the fallback name "Unknown" is already title-cased |
| Naming.EmptyTextNames | Linkedin-Auto-Connector/updated.py:163-167 | an empty headline gives the empty name, not "there"; "Ada Lovelace" gives "Ada"; only the third strategy substitutes "Unknown" |
| Sheet.FilterColumn | Linkedin-Auto-Connector/updated.py:102 | the filtered list is never longer than the records, and every kept value is truthy |
| Sheet.KeptRows | Linkedin-Auto-Connector/updated.py:102 | the kept row indices are in range and strictly increasing; a row is kept iff its column is present and truthy |
| Sheet.FilterColumnSelectsKeptRows | Linkedin-Auto-Connector/updated.py:102 | the filter yields exactly the column values of the kept rows, in row order |
| Sheet.PyPrefix | Linkedin-Auto-Connector/updated.py:327 | `[:n]` is a prefix; its length is `min(n, len)` for `n >= 0`, and `len + n` (at least 0) for a negative `n` |
| ListMode.ResolveConnect | Linkedin-Auto-Connector/updated.py:126-152 | the direct button is used iff it is found and clicked; the More menu is used only after the direct attempt timed out, and it is used whenever it works then; the profile is skipped iff both attempts time out; any other exception on either path escapes with its own kind |
| ListMode.Deliver | Linkedin-Auto-Connector/updated.py:156-192 | an invitation goes out iff the plain send works, or a note was requested and the note box and note send both work; a requested note whose steps work is the one sent; a note goes out only when it was requested and its box and send steps worked, and it is the personalised letter with the headline name |
| ListMode.VisitProfile | Linkedin-Auto-Connector/updated.py:119-208 | a profile is dropped iff loading raised or an exception escaped resolution; it is skipped iff both lookups timed out; it is not sent iff no send control worked; it is pending iff the Connect button remains; a sent profile carries the route and note used |
| ListMode.SendToUrls | Linkedin-Auto-Connector/updated.py:116-209 | one outcome per address, in order; the tally is the number of confirmed outcomes and never exceeds the number of addresses |
| ListMode.RunFromSheet | Linkedin-Auto-Connector/updated.py:325-327 | after the filter and `[:limit]`, the tally is at most the records and at most a non-negative limit |
| ListMode.CountedIffConfirmed | Linkedin-Auto-Connector/updated.py:194-201 | a profile counts iff it loaded, its Connect control was activated, a send control worked, and the confirmation lookup finds no Connect button |
| ListMode.ConnectStillPresentNotCounted | Linkedin-Auto-Connector/updated.py:195-198 | a Connect button still present after sending means the profile is not counted |
| ListMode.DirectButtonBeforeMoreMenu | Linkedin-Auto-Connector/updated.py:126-134 | when the direct button is found and clicked, what the More menu would show makes no difference |
| ListMode.MoreMenuAfterDirectTimeout | Linkedin-Auto-Connector/updated.py:134-149 | after the direct lookup times out, a working More menu activates the profile, whatever the direct click would have done |
| ListMode.NoteTriedFirst | Linkedin-Auto-Connector/updated.py:156-172 | a requested note whose steps work is sent, and the plain send control makes no difference |
| ListMode.BothLookupsTimedOutSkips | Linkedin-Auto-Connector/updated.py:134-152 | both lookups timing out skips the profile as "no Connect control" |
| ListMode.NoteFailureFallsBack | Linkedin-Auto-Connector/updated.py:173-183 | a failed note ends the visit as if no note had been asked for; if the plain send fails too, the profile is not sent |
| ListMode.SentNoteIsPersonalised | Linkedin-Auto-Connector/updated.py:163-168 | a counted profile that carries a note carries the personalised letter |
| ListMode.SendToUrlsAppend | Linkedin-Auto-Connector/updated.py:117-201 | appending an address adds exactly that address's contribution to the tally |
| ListMode.AllConfirmedAllCounted | Linkedin-Auto-Connector/updated.py:116-209 | when every profile is confirmed, the tally equals the number of addresses |
| ListMode.LimitThreeOfFive | Linkedin-Auto-Connector/updated.py:327 | a limit of 3 on five confirmed addresses sends exactly three |
| ListMode.NegativeLimitDropsFromEnd | Linkedin-Auto-Connector/updated.py:327 | a limit of -1 visits every address but the last; a limit of 0 visits none |
| SearchMode.ResolveProfile | Linkedin-Auto-Connector/update.py:144-175 | strategy 1 supplies the profile when it works, else strategy 2, else strategy 3, each with its own name rule; there is no profile iff all three raise |
| SearchMode.HandleButton | Linkedin-Auto-Connector/update.py:139-200 | message mode counts without clicking or logging; connect mode counts iff a profile was located and the hover-click and the send steps raised nothing; a counted note is the personalised letter; a control is skipped unresolved iff every strategy raised |
| SearchMode.ProcessButtons | Linkedin-Auto-Connector/update.py:135-200 | the controls are handled in order; the counter grows by the number counted and stays within a limit it started below; every control handled was met with the counter below the limit, and the page stops early only at the limit |
| SearchMode.MetBelowLimitAtEachControl | Linkedin-Auto-Connector/update.py:135-137 | each control handled on a page was reached while the counter, advanced by the controls counted before it, was still below the limit |
| SearchMode.SearchLoop | Linkedin-Auto-Connector/update.py:103-213 | the counter grows by the counted outcomes and never passes the limit a run below it started with; a run started at the limit sees no page; the run sees no more pages than it is given and keeps no more outcomes than their controls |
| SearchMode.VisitPage | Linkedin-Auto-Connector/update.py:105-121 | a page stops the run iff its scroll, its banner or its control query interrupts; the stop is a rate limit iff the scroll went through and the banner showed, otherwise a fault; an uninterrupted page processes its controls |
| SearchMode.HaltReasons | Linkedin-Auto-Connector/update.py:103-213 | the run stops at the limit, or below it on the last page given, or on the banner of the last page seen after a quiet scroll, or on a page whose scroll or control query raised |
| SearchMode.SeenPagesCalm | Linkedin-Auto-Connector/update.py:103-213 | a run below the limit sees at least one page; every page before the last one seen was calm, and so was the last one when the run stopped at the limit or for want of a next page |
| SearchMode.Feed | Linkedin-Auto-Connector/update.py:135-200 | processing pages one after another, each entered with the counter the previous one left, adds the counted outcomes to the counter |
| SearchMode.SearchLoopIsFeed | Linkedin-Auto-Connector/update.py:103-213 | the loop's counter and outcomes are exactly those of processing, one after another, the pages it saw |
| SearchMode.CalmStep | Linkedin-Auto-Connector/update.py:134-209 | on a calm page below the limit, the loop processes the page; a page that meets the limit is the last seen and stops the run at the limit, a last page below it stops the run for want of a next page, and otherwise the run continues on the next page with the counter the page left |
| SearchMode.PagesEnteredBelowLimit | Linkedin-Auto-Connector/update.py:103-209 | the loop moves to another page only below the limit: every page seen was entered with the counter, as the pages before it left it, still below the limit |
| SearchMode.SendConnectionRequest | Linkedin-Auto-Connector/updated.py:212-300 | for a non-negative limit the count never exceeds it; a limit of zero or less processes nothing |
| SearchMode.TallyAppend | Linkedin-Auto-Connector/update.py:193 | the counted outcomes of two runs of controls add up |
| SearchMode.TotalButtonsAppend | Linkedin-Auto-Connector/update.py:135 | the controls of two runs of pages add up |
| SearchMode.BannerCutsFeed | Linkedin-Auto-Connector/update.py:109-114 | once a banner page is reached, its controls and every later page make no difference |
| SearchMode.BannerStopsProcessing | Linkedin-Auto-Connector/updated.py:218-223 | no control on or after a banner page is processed |
| SearchMode.ProcessAllCounted | Linkedin-Auto-Connector/update.py:135-137 | when every control counts, a page stops exactly at the limit or at its last control |
| SearchMode.LoopAllCounted | Linkedin-Auto-Connector/updated.py:214-297 | with no interruption and every control counted, the run counts `min(limit, controls offered)` |
| SearchMode.RunAllCounted | Linkedin-Auto-Connector/updated.py:214-297 | a whole run from a zero counter over such pages counts `min(limit, controls offered)` |
| SearchMode.MessageModeAllCalmCounted | Linkedin-Auto-Connector/update.py:142-196 | in message mode every control on every calm page is counted |
| SearchMode.MessageModeCountsEveryButton | Linkedin-Auto-Connector/update.py:142-196 | message mode counts every control found, up to the limit |
| SearchMode.EmptyPageMovesOn | Linkedin-Auto-Connector/update.py:124-132 | a page with no controls goes to the next page with the counter unchanged, or ends the run when there is none |
| SearchMode.LimitThreeOfFive | Linkedin-Auto-Connector/update.py:135-137 | a limit of 3 on one page of five working controls sends three and stops at the limit |
| SearchMode.BannerAfterOneSuccess | Linkedin-Auto-Connector/updated.py:218-221 | a banner on page two, after one success on page one, ends the run with one invitation |
| SearchUrl.NetworkCode | Linkedin-Auto-Connector/updated.py:357-362 | the three degrees map to their facet codes, and the code is non-empty iff the degree is exactly one of them |
| SearchUrl.EncodeSpacesCharwise | Linkedin-Auto-Connector/update.py:256 | encoding turns each space into `%20` and keeps every other character; the result has no space and decodes back when the input has no `%` |
| SearchUrl.LowerCommutesWithEncoding | Linkedin-Auto-Connector/update.py:256 | lower-casing after encoding equals encoding after lower-casing |
| SearchUrl.KeywordField | Linkedin-Auto-Connector/update.py:256 | for every keyword, the field is the lower-cased keyword's space-separated pieces joined by `%20`, with no space and no upper-case letter; it decodes back to the lower-cased keyword when the keyword has no `%` |
| SearchUrl.LocationField | Linkedin-Auto-Connector/updated.py:363 | for every location, the field is the location's space-separated pieces joined by `%20`, case kept and no space; it decodes back to the location when the location has no `%` |
| SearchUrl.SearchQuery | Linkedin-Auto-Connector/updated.py:363 | the query has no raw space whenever the facet code has none; its length is the fields' lengths plus the fixed separators |
| SearchUrl.SearchQueryParts | Linkedin-Auto-Connector/updated.py:363 | cut at `&`, the query gives exactly the keyword field, `locations=` with the location field, `network=` with the code, and the origin marker, in that order, when no input holds an `&` |
| SearchUrl.SearchAddress | Linkedin-Auto-Connector/updated.py:363 | the address starts with the people-search base and has no raw space after it |
| SearchUrl.SearchAddressFields | Linkedin-Auto-Connector/update.py:256 | for every input, the address is the base followed by the keyword field, the location field and the degree's facet in that order; the keyword field decodes to the lower-cased keyword when the keyword has no `%`, and the location field to the unchanged location when the location has no `%` |
| SearchUrl.UppercaseDegreeLosesFilter | Linkedin-Auto-Connector/updated.py:331-362 | "1ST" passes the entry check, maps to no facet, and builds an address different from the "1st" one |
| SearchUrl.FoldedNetworkCode | Linkedin-Auto-Connector/updated.py:332 | the folded lookup gives a facet iff the entry check accepts the degree; each accepted spelling gets its own degree's facet; it agrees with the exact lookup on the three names |
| SearchUrl.IntendedSearchAddress | Linkedin-Auto-Connector/update.py:222-256 | any spelling of a degree builds the address of its lower-case spelling |
| SearchUrl.IntendedAddressKeepsFacet | Linkedin-Auto-Connector/update.py:222-256 | so every accepted degree gets a facet, never the unfiltered address, and lower-case input builds the same address as the code does |
| SearchUrl.UppercaseDegreeKeepsFilter | Linkedin-Auto-Connector/updated.py:331-362 | with the folded lookup, "1ST" gets the first-degree facet and builds exactly the "1st" address |

## Left out

- The browser is not modelled. WebDriver setup, navigation, XPath evaluation, scrolling, sleeps and wait timeouts are input observations: a `Step` that completes or raises a `Fault`.
- The fault kinds are kept to three: timeout, stale element, other. The code distinguishes only these.
- Login is left out because it is I/O against external state: cookie login, credential login, the two-factor prompt and cookie saving.
- The spreadsheet client and its credentials are left out. Only the filter over already-fetched records is modelled. A cell is text, a whole number or a fractional number, with Python's truthiness for each. Other value types the client might return are not modelled.
- `select_location` is left out: it is UI interaction whose errors are swallowed.
- The interactive prompts in `main` are left out. So is the one-time re-prompt for an invalid degree, since the model takes the degree as given.
- Coloured console logging is left out. The exception is the success log line in the search flow: its `UnboundLocalError` in message mode is modelled as `logged = false`.
- Naming.TitledFirstWord: `str.title` and `str.lower` are modelled on ASCII letters only. Other characters count as uncased and stay unchanged.
- ListMode.SendToUrls: the handler for a stale element and the generic handler both drop the address. The "retrying" message does not repeat the visit, so neither does the model.
- ListMode.RunFromSheet: the visits are given as one observation per remaining address, so their number must equal the truncated list's length.
- SearchMode.SearchLoop: requires at least one page, namely the one on screen when the loop starts. Running out of pages stands for "no Next control". A Next click that raises on a page with a later page is not distinguished from the end of the results.
- SearchMode.SearchLoop: the feed is finite and every completed Next click is taken to show a new page, so the loop always ends. In the code, a Next click that completes without advancing makes it process the same page again (update.py:127-129 and 205-206). It can then count that page's controls twice or loop until the limit or an exception stops it. The model does not cover this.
- SearchUrl.SearchQueryParts: the code escapes only spaces, so an `&` in the keyword, location or code splits a field when the query is read back. The parse is stated for input without `&`. The layout itself is stated for every input by SearchUrl.SearchAddressFields.
- SearchUrl.KeywordField: the code escapes only spaces, so a `%` already in the keyword reads back as an escape. The decode round trip is stated for keywords without `%`. The field's exact value is stated for every keyword.
- SearchUrl.LocationField: likewise, the decode round trip is stated for locations without `%`, and the field's exact value for every location.
- A raise from the outer `except Exception` of the search loop is folded into the page's scroll and query observations (`PageFault`). A raise inside a control's processing is covered by that control's steps.

## Findings

| source | as written | input that shows it | evidently intended | confidence | as-written member | corrected member |
|---|---|---|---|---|---|---|
| Linkedin-Auto-Connector/updated.py:332-362 | the degree is accepted after `.lower()`, but the facet lookup uses the degree as typed | degree "1ST": accepted, yet `network_mapping.get("1ST", "")` gives `""`, so the search runs with no degree filter | look the facet up with the lower-cased degree, so that every accepted degree gets its facet | not executed | SearchUrl.UppercaseDegreeLosesFilter | SearchUrl.IntendedSearchAddress |
