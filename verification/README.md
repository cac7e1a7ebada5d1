# Product search endpoint, modelled in Dafny

This project models the product search endpoint of a small Next.js
scraper (`GET /api/searchprod?query=…` in `app/api/searchprod/route.js`).
The endpoint drives a headless browser to a retail site's search page,
reads every result card, and answers with a JSON body
`{success, status, products | error}`.

The browser work is abstracted. What the model keeps is everything the
handler decides for itself:

- the query guard: a missing or empty `query` gives status 400 and nothing else runs;
- the per-card extraction: fields are trimmed, the price is composed from
  its whole and fraction parts, missing fields become the placeholder `"N/A"`,
  and cards without a title are dropped;
- the choice between 404 (no records) and 200 (the records), and the 500
  body for any exception;
- the `finally` block that closes the browser whenever one was launched.

Modules, one file each:

- `options.dfy`, module `Options`: `Option`, standing for JavaScript's absent values.
- `text.dfy`, module `Text`: `String.prototype.trim` over ECMAScript's
  whitespace and line-terminator characters. It is defined one character at
  a time and proved equal to a reference definition that cuts whole runs.
- `filtermap.dfy`, module `FilterMaps`: a generic filter-and-map over
  sequences, with its order, membership, emptiness and concatenation lemmas.
- `extraction.dfy`, module `Extraction`: `Card` is a result card as the raw
  strings its selectors return. `Product` is one output record. The module
  also holds price composition and its inverse for fractions without a dot,
  `ExtractProduct`,
  `BuildProducts`, and the push loop `CollectProducts`.
- `search.dfy`, module `Search`: the response `Body`, `Respond`, and
  `Handle`. `Handle` runs one request and records its browser `Launch` and
  `Close` events.

Two behaviours of the code worth stating plainly:

- Only a falsy query is rejected (`!query`: absent, or the empty string).
  A query made only of spaces passes the guard and goes to the browser.
- `browser.close()` is awaited inside `finally`. If it throws, that
  exception replaces the pending response, so a failed close is not
  masked. `Handle` models this as the exit `Threw`.

## Model

| member | source | states |
|---|---|---|
| Text.Trim | app/api/searchprod/route.js:68-89 | `trim` leaves a string with no whitespace at either end and never lengthens it |
| Text.TrimMatchesRuns | app/api/searchprod/route.js:68-89 | stripping one whitespace character at a time from either end equals cutting the whole leading run and then the whole trailing run |
| Text.TrimIsInfix | app/api/searchprod/route.js:68-89 | the trimmed value is a contiguous infix of the raw text, and everything cut before and after it is whitespace |
| Text.TrimEmptyIff | app/api/searchprod/route.js:68-93 | a trimmed field is empty exactly when the raw text is all whitespace, in both directions |
| Text.TrimKeepsContent | app/api/searchprod/route.js:68-89 | every non-whitespace character of the raw text survives trimming, so such text never trims to empty |
| Text.TrimIdempotent | app/api/searchprod/route.js:68-89 | trimming an already trimmed field changes nothing; a direct consequence of `Trim`'s own contract |
| Extraction.ComposePrice | app/api/searchprod/route.js:80-82 | a price is never empty; it is `"N/A"` exactly when the whole part is empty, and otherwise starts with the rupee sign followed by the whole part |
| Extraction.SplitComposePrice | app/api/searchprod/route.js:80-82 | for a fraction that contains no dot, splitting a composed price at its last dot gives back the whole part and the fraction, with `"00"` standing for an empty fraction; the `"N/A"` price reads back as no price |
| Extraction.ComposePriceExamples | app/api/searchprod/route.js:80-82 | `1,299` and `99` give `₹1,299.99`; `499` with no fraction gives `₹499.00`; no whole part gives `"N/A"` |
| Extraction.OrNotAvailable | app/api/searchprod/route.js:97-98 | the falsy-default of `reviews` and `stars`: the result is never empty; it is the value when that is non-empty and `"N/A"` when it is the empty string |
| Extraction.ImageOrNotAvailable | app/api/searchprod/route.js:91-99 | the falsy-default of `image`: the result is never empty; it is the `src` value when present and non-empty, and `"N/A"` when the attribute is missing or empty |
| Extraction.ExtractProduct | app/api/searchprod/route.js:68-101 | a card yields a record exactly when its trimmed title is non-empty; the record holds the trimmed title and the composed price; reviews and stars are the trimmed text when non-empty and `"N/A"` otherwise; the image is the untrimmed `src` when present and non-empty and `"N/A"` otherwise; the record is well formed |
| Extraction.BuildProducts | app/api/searchprod/route.js:65-102 | the titled cards' records in card order, never more records than cards; its other properties are the BuildProducts* rows below |
| Extraction.BuildProductsWellFormed | app/api/searchprod/route.js:93-101 | the list has at most as many records as there are cards, and each record has a non-empty title and no empty field |
| Extraction.BuildProductsMembership | app/api/searchprod/route.js:65-102 | a record is in the list exactly when some card yields it |
| Extraction.BuildProductsEmptyIff | app/api/searchprod/route.js:93-104 | the list is empty exactly when no card has a non-empty trimmed title |
| Extraction.TitledIndices | app/api/searchprod/route.js:67-93 | the titled cards' positions, strictly increasing, containing a position exactly when that card has a title |
| Extraction.BuildProductsInPlace | app/api/searchprod/route.js:65-102 | the list has one record per titled card, and its k-th record is the record of the k-th titled card, so card order is preserved |
| Extraction.BuildProductsAppend | app/api/searchprod/route.js:67-101 | the records for two runs of cards are the first run's records followed by the second's |
| Extraction.CollectProducts | app/api/searchprod/route.js:65-102 | the `each`/`push` loop over the cards builds exactly the filter-and-map list |
| FilterMaps.FilterMapAppend | app/api/searchprod/route.js:65-102 | filter-and-map distributes over concatenation |
| FilterMaps.FilterMapInPlace | app/api/searchprod/route.js:65-102 | filter-and-map keeps the kept elements' images in their original order, one per kept element |
| Search.Respond | app/api/searchprod/route.js:11-118 | every body is consistent: success holds exactly on 200, records are present and non-empty exactly on success, and otherwise the status's own message is given. 400 comes exactly from a missing or empty query, 500 exactly from a failed run, 404 exactly when no card has a title, and 200 exactly when some card does; a 200 body carries exactly the built list |
| Search.Handle | app/api/searchprod/route.js:11-123 | a missing query returns 400 with no browser events. A browser is launched exactly when the query passes and the launch succeeds, and is then closed as the last event, with launches equal to closes. The handler throws exactly when that close throws, and otherwise returns the `Respond` body |
| Search.BrowserReleased | app/api/searchprod/route.js:21-123 | on every path, every launch is followed by a close, and every close is preceded by a launch; a readable restatement of `Handle`'s trace clauses, proved from them |

## Left out

- Browser provisioning and driving are not modelled. This covers the choice between a bundled and a local browser on `AWS_REGION`/`VERCEL`, the launch options, the user agent, navigation, typing the query and pressing Enter. These are foreign library calls and I/O. `Session` keeps only their combined effect: no browser, or a browser plus either the rendered cards or an exception.
- The CSS selectors (`.s-main-slot .s-result-item`, `h2 a span`, `.a-price-whole`, …) and the HTML parser are opaque library code. A `Card` holds the raw strings the selectors return. A selector with no match gives the empty string; a missing `src` attribute gives `None`.
- Exceptions thrown by the parser or the selectors during extraction are not modelled separately. They are part of `Outcome.Failed`, because the code maps them to the same 500 body.
- The transport status code and headers are not modelled, only the JSON body. `status` is a field of that body.
- Concurrent requests are not modelled. Each request owns its browser, so the model treats one request at a time.
- The other routes (`app/api/parse/route.js`, `app/api/scrape/route.js`), the page component and the image-host configuration are not part of this model. They contain no logic of the endpoint.
- Strings are sequences of Unicode scalar values. The engine's UTF-16 code units and surrogate pairs are not modelled. Trimming uses the whitespace and line-terminator set of ECMAScript's `trim`.
