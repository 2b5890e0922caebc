# Broxtowe bin-collection scraper, modelled in Dafny

The scraper looks up a household's waste-collection schedule on Broxtowe
Borough Council's self-service form. One lookup drives the form's ASP.NET
postback sequence: load the page, post the postcode search, post the chosen
address, post the submit button. Each post carries back the hidden state
tokens (`__VIEWSTATE`, `__VIEWSTATEGENERATOR`, `__EVENTVALIDATION`) taken
from the response just before it. The final page holds a `bartec` table that
becomes a list of bin-collection records.

The model covers both versions of the scraper:

- `scrape.py` is the current one. It has typed errors, checks the status of
  every response, strips the `U` prefix from address values and matches the
  caller's UPRN.
- `bins.py` is the earlier one. It checks no status, returns `None` for
  "nothing found", and posts the caller's UPRN as given.

Modules:

- `Text` (text.dfy) holds the Python string operations used:
  `split`, `strip`, `lstrip`, `upper`, `lower`, `replace`.
- `Portal` (portal.dfy) is the shared vocabulary: control names, requests,
  abstract responses, records, and the hidden-token lookup on the first page.
- `Delta` (delta.dfy) is `extract_aspx_fields`. It is a nested loop, proved
  equal to a declarative scan. `bins.py:47-59` is a line-for-line copy of
  `scrape.py:81-93`, so both versions use this one definition.
- `Schedule` (schedule.dfy) is the row loop of `parse_bin_data`, which both
  versions share.
- `AddressList` (addresses.dfy) is the address-option loop and the
  first-match search.
- `Scrape` (scrape.dfy, for `scrape.py`) and `Bins` (bins.dfy, for `bins.py`)
  hold the parts that differ between the two versions, including each
  version's `get_bin_data`.

The network and the HTML parser are made into inputs:

- each lookup receives its four responses as values;
- it returns, next to its result, the list `sent` of requests it issued;
- the initial page is the map of its named `<input>` values;
- the final page is the cell texts of the `bartec` table's rows, or nothing
  when the table is absent;
- finding the address `<select>` in the panel fragment is the function
  parameter `selectIn`;
- `datetime.strptime` with `"%A, %d %B %Y"` is the function parameter
  `parseDate`.

Uncaught Python exceptions are the `Fault` values `IndexError` and
`TypeError`. `IndexError` comes from reading past the last part of a split
response. `TypeError` comes from subscripting or parsing a `None`.

Points to note about the code:

- A missing hidden input on the first page raises a `TypeError`
  (`scrape.py:138`); it is not turned into one of the scraper's own errors.
- `extract_uprn` strips every leading `U`, not exactly one (`scrape.py:99`).
- Requests are made without a timeout, and no network exception is
  caught, so no timeout becomes `ServiceUnavailableError`.
- No status fails the final `response.ok` test (`scrape.py:121`).
  `Scrape.ValidateResponse` proves that every status below 400 passes and
  every other status is rejected before that test.

## Model

| member | source | states |
|---|---|---|
| `Delta.ExtractAspxFields` | scrape.py:81-93 | The caller's key list gains the three token names. The nested loop's result equals the declarative scan `Extracted`: a fault exactly when the final part is a key, otherwise each key maps to the part after its last occurrence, or `None`. |
| `Delta.ScanPart` | scrape.py:89-91 | The inner loop over the keys for part `i`: when a next part exists, the dictionary afterwards agrees with the scan of parts `0 .. i`, with every key bound to the part after its last occurrence. At the final part it raises `IndexError` exactly when that part is a key, and otherwise leaves the dictionary unchanged. |
| `Delta.ExtractKeys` | scrape.py:82-85 | A returned dictionary has exactly the requested keys plus the three token names. |
| `Delta.ExtractFaults` | scrape.py:88-91 | The extractor faults exactly when the last `|`-part equals a requested name, because `response_parts[i + 1]` is read past the end. |
| `Delta.ExtractAbsent` | scrape.py:85-91 | A requested name maps to `None` exactly when it is no part before the final one. |
| `Delta.ExtractLastWins` | scrape.py:88-91 | A requested name maps to the part after its last occurrence; later matches overwrite earlier ones. |
| `Delta.ValueAfterAbsent` | scrape.py:85-91 | After scanning a prefix, a key is unbound (`None`) exactly when it does not occur in that prefix. |
| `Delta.ValueAfterLast` | scrape.py:88-91 | After scanning a prefix, a key is bound to the part after its last occurrence in it. |
| `Delta.ExtractExample` | scrape.py:81-93 | On a small delta response, the panel fragment and `__VIEWSTATE` are found, and the two tokens it lacks map to `None`. |
| `Text.Split` | scrape.py:83 | `split('|')` yields at least one part, and no part contains `|`. |
| `Text.JoinSplit` | scrape.py:83 | Joining the parts with `|` restores the response text. |
| `Text.SplitJoin` | scrape.py:83 | Splitting a join of `|`-free parts returns those parts. |
| `Text.TrimStart` | scrape.py:99 | `lstrip` result: a suffix of the input, preceded only by stripped characters, and not starting with one. |
| `Text.TrimEnd` | scrape.py:61 | The right half of `strip()`: a prefix of the input, followed only by stripped characters, and not ending in one. |
| `Text.Strip` | scrape.py:61 | `strip()` is `Strip(s, Whitespace)`: a contiguous slice of the input with only stripped characters cut off on each side, that neither starts nor ends with one. |
| `Text.ToUpper` | scrape.py:125 | ASCII `upper()`: same length, every character upper-cased in place, no lower-case letter left, and every other character unchanged. |
| `Text.ToLower` | bins.py:82 | ASCII `lower()`: same length, every character lower-cased in place, no upper-case letter left, and every other character unchanged. |
| `Text.ToUpperAppend` | scrape.py:125 | `upper()` works character by character, so it distributes over concatenation. |
| `Text.ToLowerAppend` | bins.py:82 | `lower()` works character by character, so it distributes over concatenation. |
| `Text.Without` | scrape.py:125 | `replace(" ", "")` leaves no space, is no longer than the input, keeps only characters of the input, and changes nothing when there was no space. |
| `Text.WithoutChar` | scrape.py:125 | A single character is removed exactly when it is the replaced one and kept otherwise. |
| `Text.WithoutAppend` | scrape.py:125 | Removal distributes over concatenation. With `Text.WithoutChar`, every other character is kept, in its order. |
| `Text.LowerWithout` | bins.py:82 | Lower-casing commutes with removing spaces. |
| `Delta.PanelFields` | scrape.py:153-155 | `extract_aspx_fields(response.text, [FORM_ID])`, as both versions call it: `IndexError` exactly when the response's final `\|`-part is the panel name or a token name; otherwise a dictionary with exactly the panel name and the three token names. |
| `Portal.TokenForm` | scrape.py:147 | The page tokens, as form fields: the same names, each with its token as a present value. |
| `Portal.PageTokens` | scrape.py:138 | The page's three tokens are read when all three inputs exist; a missing input raises `TypeError`. |
| `Schedule.Digits` | scrape.py:65 | The decimal rendering of a year or day is non-empty and made of digits only. |
| `Schedule.Pad2` | scrape.py:65 | `%m` and `%d` render at least two characters. |
| `Schedule.IsoDate` | scrape.py:65 | `strftime("%Y-%m-%d")` is never the empty string. |
| `Schedule.AfterHeader` | scrape.py:56 | `[1:]` drops the header row, or gives nothing when there is no row. |
| `Schedule.Record` | scrape.py:61-73 | The record of a four-cell row: its ISO date is `""` exactly when the stripped raw date fails to parse. |
| `Schedule.RecordDate` | scrape.py:61-73 | `type` and `next_collection_raw` are the stripped first and fourth cells. The ISO date is `""` exactly when the raw text fails to parse, and otherwise the rendering of the parsed date. |
| `Schedule.Qualifying` | scrape.py:58-60 | The kept rows all have exactly four cells, and there are no more of them than rows. |
| `Schedule.QualifyingAppend` | scrape.py:58-60 | The rows kept from concatenated tables are the concatenated kept rows, so row order is kept. |
| `Schedule.QualifyingOrigin` | scrape.py:58-60 | Every kept row is a row of the table. |
| `Schedule.QualifyingComplete` | scrape.py:58-60 | Every row of exactly four cells is kept. |
| `Schedule.QualifyingEmpty` | scrape.py:76-77 | Nothing is kept exactly when no row has four cells. |
| `Schedule.RecordsOf` | scrape.py:58-74 | One record per kept row. |
| `Schedule.RecordsOfAt` | scrape.py:58-74 | The `k`-th record is the record of the `k`-th kept row. |
| `Schedule.RecordsOfRows` | scrape.py:58-74 | There is one record per kept row, in the kept rows' order, and each is the record of a row of the table. |
| `Schedule.RecordsSnoc` | scrape.py:58-74 | Scanning one more row appends that row's record when it has four cells, and nothing otherwise. |
| `Schedule.CollectRows` | scrape.py:55-74 | The row loop appends exactly `Records(rows)`: one record per four-cell row, in order. |
| `AddressList.ToAddresses` | scrape.py:164-170 | No more addresses than options. When the first option is kept, the first address is built from its value and text. |
| `AddressList.ToAddressesAppend` | scrape.py:165-170 | Addresses of concatenated option lists are concatenated, so document order is kept. |
| `AddressList.ToAddressesOrigin` | scrape.py:166-170 | Every address comes from a kept option: its UPRN is derived from the option's value and its label is the option's text. |
| `AddressList.ToAddressesEmpty` | scrape.py:172-173 | The address list is empty exactly when no option is kept. |
| `AddressList.CollectAddresses` | scrape.py:164-170 | The option loop appends exactly `ToAddresses(options)`: the options with a value that is non-empty and not `"0"`, in document order. |
| `AddressList.FindAddress` | scrape.py:175-178 | Gives the first address whose UPRN equals the input, or `None` exactly when no address has it. |
| `Scrape.ResponseOk` | scrape.py:121 | `response.ok` holds for every status below 400 and fails for every status from 400 to 599. |
| `Scrape.ValidateResponse` | scrape.py:101-122 | A status passes exactly when it is below 400. A status of 500 or more, 503 included, is `ServiceUnavailableError`. A status from 400 to 499, 404 included, is `InvalidResponseError`. |
| `Scrape.FormatUprn` | scrape.py:95-96 | Gives `U` followed by the UPRN. |
| `Scrape.ExtractUprn` | scrape.py:98-99 | The result never starts with `U`, and what it dropped is a run of `U`s. |
| `Scrape.ExtractUprnIdempotent` | scrape.py:98-99 | Stripping twice is stripping once. |
| `Scrape.FormatExtractRoundTrip` | scrape.py:95-99 | `extract_uprn(format_uprn(u)) == u` exactly when `u` does not start with `U`. |
| `Scrape.ExtractFormatRoundTrip` | scrape.py:95-99 | `format_uprn(extract_uprn(v)) == v` exactly when `v` has exactly one leading `U`. |
| `Scrape.OfferedUprnsUnprefixed` | scrape.py:166-169 | No offered address has a UPRN starting with `U`. |
| `Scrape.NormalizePostcode` | scrape.py:125 | The normalised postcode has no space and no lower-case letter. |
| `Scrape.NormalizePostcodeAppend` | scrape.py:125 | Normalising distributes over concatenation. |
| `Scrape.NormalizePostcodeChar` | scrape.py:125 | A space is dropped and any other character is kept, upper-cased. With `Scrape.NormalizePostcodeAppend`, every non-space character survives upper-cased, in order. |
| `Scrape.NormalizePostcodeIdempotent` | scrape.py:125 | Normalising twice is normalising once. |
| `Scrape.SearchForm` | scrape.py:141-146 | The search form holds the postcode and the search target, and no panel or token name. |
| `Scrape.AddressForm` | scrape.py:181-186 | The address form holds the chosen value and the address target, and no panel or token name. |
| `Scrape.NextForm` | scrape.py:196-198 | The submit form targets the submit button, and holds no panel or token name. |
| `Scrape.SearchPostCarries` | scrape.py:141-147 | After `data.update(aspx_fields)`, the search form still holds the postcode and its target, and carries every page token. |
| `Scrape.AddressPostCarries` | scrape.py:181-187 | After `data.update(aspx_fields)`, the address form still holds the chosen value and its target, and carries every extracted field. |
| `Scrape.ParseBinData` | scrape.py:48-79 | A missing table, or no four-cell row after the header, is `UpstreamError`. Otherwise the result is those rows' records in order, and it is never empty. |
| `Scrape.MatchIn` | scrape.py:156-178 | The address matched in a search response: found exactly when the panel fragment is read, it has a selector, and an offered address has the caller's UPRN. A match is the first offered address with that UPRN, and its UPRN carries no `U` prefix. |
| `Scrape.SearchAddress` | scrape.py:124-178 | Steps in source order: page status, hidden inputs (`TypeError`), search post with the normalised postcode and page tokens, search status, unreadable response (`IndexError`), missing fragment (`TypeError`), no match (`ClientError`, after two requests). Otherwise the search response's fields and the first matching address. |
| `Scrape.SelectAndSubmit` | scrape.py:180-209 | The address post carries `format_uprn` of the match and the search response's fields. Then come the address status, the unreadable response (`IndexError`), the submit post with the address response's fields, the final status and `parse_bin_data`. It never gives `ClientError`, and a schedule is never empty. |
| `Scrape.GetBinData` | scrape.py:124-214 | Every outcome in source order. A rejected status stops the lookup before the next request, with that status's error; a missing hidden input or fragment is `TypeError`; an unreadable delta response is `IndexError`; an unoffered UPRN is `ClientError`, after exactly two requests. The posts carry the upper-cased, space-free postcode, `format_uprn(uprn)` and each previous response's fields. Well-formed responses that offer the UPRN and pass every status give, after four requests, the first matching address and the non-empty schedule of the final page. A `U`-prefixed UPRN always fails. |
| `Bins.NormalizePostcode` | bins.py:82 | The earlier version's postcode has no space and no upper-case letter. |
| `Bins.NormalizePostcodeCase` | bins.py:82 | The earlier version's postcode is the current version's, lower-cased. |
| `Bins.SearchForm` | bins.py:76-84 | The search form holds the postcode and the search target, and no panel or token name. |
| `Bins.AddressForm` | bins.py:113-122 | The address form holds the value as given and the address target, and no panel or token name. |
| `Bins.NextForm` | bins.py:131-137 | The submit form targets the submit button, and holds no panel or token name. |
| `Bins.Offered` | bins.py:93-110 | The addresses of the panel's selector: none exactly when there is no selector or no option with a value other than `""` and `"0"`, the two `return None`s. Each address is such an option, with its raw value as the UPRN and its text as the label. |
| `Bins.ParseBinData` | bins.py:17-45 | `None` exactly when the table is missing. Otherwise the four-cell rows' records after the header, possibly none, with no error. |
| `Bins.SearchAddresses` | bins.py:61-110 | A missing hidden input is `TypeError` after one request. Otherwise the search post carries the lower-cased, space-free postcode and the page tokens. Then an unreadable response is `IndexError`, a missing fragment `TypeError`, no offered address `None`, and otherwise the search response's fields. |
| `Bins.SelectAndSubmit` | bins.py:112-147 | The address post carries the caller's UPRN unchanged and the search response's fields. An unreadable address response is `IndexError`. Otherwise the submit post carries its fields, and the result is the final page's records, or `None` without a table. |
| `Bins.GetBinData` | bins.py:61-151 | Every outcome in source order, whatever the statuses. A missing hidden input is `TypeError` after one request. An unreadable search response is `IndexError` and a missing fragment `TypeError`, after two requests. `NoAddress` is returned after exactly two requests, when the selector or its address options are missing. An unreadable address response is `IndexError` after three. Otherwise all four requests go out, carrying the lower-cased postcode, the caller's UPRN unchanged and each previous response's fields, and the result is `{bin_collections: …}`. |

## Left out

- HTTP transport (`requests.Session`, `get`, `post`): each response is an input value and each request an output value. Cookies are not modelled, and neither are headers beyond the `Delta=true/false` flag (`get_headers`).
- Form encoding by `requests`: `Form` is the Python dict itself. The model does not capture that `requests` drops `None`-valued fields when it encodes the form, nor the dict's insertion order.
- HTML parsing by BeautifulSoup: its results are inputs. Nested tables, `th` cells and markup inside cells are not modelled. An `<input>` without a `value` attribute (a `KeyError`) is folded into the missing-input `TypeError`.
- `BeautifulSoup(None)` on a missing panel fragment is modelled as a `TypeError`, as bs4 takes `len` of its markup.
- `datetime.strptime` is the opaque parameter `parseDate`. Which texts parse is locale- and library-dependent and is not modelled.
- Schedule.IsoDate: leaves years below 1000 unpadded, whereas current CPython pads `%Y` to four digits.
- Text.ToUpper: maps case for ASCII letters only, one character to one. Python's `upper` maps all of Unicode and can change the length (`"ß".upper()` is `"SS"`).
- Text.ToLower: maps case for ASCII letters only, one character to one, for the same reason.
- Scrape.NormalizePostcode: maps case for ASCII letters only, while Python's `upper` maps all of Unicode. Postcodes are ASCII.
- Bins.NormalizePostcode: maps case for ASCII letters only, for the same reason.
- Exception messages and the `ScraperError` base class are not modelled: errors are bare kinds.
- `api.py` (the FastAPI routes and schemas) and the `__main__` command-line blocks are not part of this model. They are a framework wrapper and I/O.
