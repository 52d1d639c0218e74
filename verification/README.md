# Icelandic bank interest rates — a Dafny model

The system is a small cloud-function API that publishes the current interest
rates of three Icelandic banks: Landsbankinn, Arion banki and Íslandsbanki.

- A scraper per bank finds the bank's rate sheet. Landsbankinn and Arion publish
  a PDF; Íslandsbanki publishes an HTML table page.
- The scraper turns the sheet into a nested rate record: deposits, mortgages,
  vehicle loans, overdrafts, cards and the penalty rate.
- A registry maps bank ids to scraper classes.
- A rate service answers requests. It uses a Firestore cache when the cached
  document is recent enough, and otherwise scrapes, saves and prunes the cache.
- An optional AI helper asks a language model to fill a fixed JSON template.

This project models the deterministic layer of that system and proves properties
of the model. That layer covers text → rates, tables → rates, link selection,
record assembly, the cache and response logic, and the registry.

Everything that talks to the outside world is a parameter (an "oracle"):

- the regex engine, as `Search(pattern, flags, text)` returning the groups of
  the first match;
- HTML traversal, as sequences of rows of cell strings, headings given as
  strings, and the `href`s of a page;
- PDF text extraction and downloads;
- HTTP, `urljoin` and `json.loads`;
- the language model call;
- the clock, and the Firestore client outcomes.

Downstream of the oracles the model follows the code branch for branch. Python
dicts are ordered association lists (`Json.Fields`), because key order and
first-wins merging matter. Percentages are exact decimals (`mantissa`, `scale`).

The modules follow the program:

| module | what it models |
|---|---|
| `Text`, `Numbers`, `Calendar`, `Json`, `Regex` | Python's `str` methods, `float()` on decimal numerals, `datetime` dates, clocks and `strftime`, dict operations (`get`, `d[k] = v`, `setdefault`, `update`), and `re.escape` |
| `IcelandicDates` | the `(\d{1,2})\.\s*(\w+)\s+(\d{4})` date pattern as a scanner, and the shared `parse_effective_date` |
| `PdfParser` | `InterestRateParser` (`functions/parser.py`) |
| `Islandsbanki`, `Arion`, `Landsbankinn`, `LegacyScraper` | the three bank scrapers and the older Landsbankinn link scraper |
| `BankBase` | the scrape outcome every scraper returns |
| `AiProcessor` | the pure helpers of the AI fallback |
| `Registry` | `functions/banks/__init__.py` |
| `Firestore` | `format_response`, `save_rates`, `clear_old_caches`, `get_cached_rates` |
| `RateService` | `RateService` over an abstract factory, cache and persistence manager |

## Model

| member | source | states |
|---|---|---|
| PdfParser.ParsePercentageAccepts | functions/parser.py:91-102 | A text is read as a rate exactly when, after removing `%` and `*`, stripping and mapping `,` to `.`, it is a decimal numeral; anything else (empty, "8,6,0") gives None rather than an exception |
| PdfParser.ParsePercentageRendered | functions/parser.py:81-102 | Any rate printed with a decimal comma or a decimal point, with or without a trailing `%`, reads back as exactly that rate ("8,60%" and "8.60%" both give 8.60) |
| PdfParser.PercentIgnored | functions/parser.py:93 | A trailing percent sign never changes the reading |
| PdfParser.RenderedClean | functions/parser.py:93-97 | Cleaning a printed rate yields its point-separated form |
| PdfParser.ParseGroup | functions/parser.py:91-102 | A capture group that did not take part yields no rate; one that did is read by `parse_percentage` |
| PdfParser.ExtractRate | functions/parser.py:324-329 | No match means no rate; a rate implies a match whose first group took part |
| PdfParser.ExtractRateFound | functions/parser.py:324-329 | `_extract_rate` yields a rate exactly when the pattern matches and its first group reads as a numeral |
| PdfParser.ExtractMultipleRates | functions/parser.py:331-336 | No match gives the empty list; a match gives one entry per capture group |
| PdfParser.ExtractMultipleRatesGroups | functions/parser.py:331-336 | Entry i is group i+1 read as a rate, and the first entry agrees with `_extract_rate` |
| PdfParser.ExtractTwoColumnRates | functions/parser.py:338-347 | Both `indexed` and `unindexed` are always present, in that order |
| PdfParser.TwoColumnOrder | functions/parser.py:338-347 | With two or more groups the first column is `indexed` and the second `unindexed`; otherwise both are null |
| PdfParser.AssignSomeLookup | functions/parser.py:136-169 | In the assign-if-found loops, each key ends up holding its candidate's value when one was found, and what it held before otherwise |
| PdfParser.AssignSomeOther | functions/parser.py:136-169 | A key that no candidate names is left untouched by those loops |
| PdfParser.PresentAll | functions/parser.py:373-378 | When every captured column parses, all of them are kept, in order |
| PdfParser.PresentFrom | functions/parser.py:373-378 | Every kept rate comes from some column, and columns that fail to parse contribute nothing |
| PdfParser.PresentSkip | functions/parser.py:373-378 | An unreadable middle column is dropped, so the third column moves into second place |
| PdfParser.TierValue | functions/parser.py:384-392 | One rate is stored bare; two as `{indexed, unindexed}`; three or more as `{unbound, 3_months, 6_months}` holding the first three; none leaves the tier out |
| PdfParser.TierEntry | functions/parser.py:370-392 | A tier contributes nothing when its row is absent, or when the row holds no readable rate |
| PdfParser.ParseTieredAccounts | functions/parser.py:349-394 | There are no tiers when the account's section is not found; otherwise keys are distinct and drawn only from the six fixed tier labels |
| PdfParser.TieredAccountLookup | functions/parser.py:364-392 | Each tier key holds exactly what that tier's row in the account section yields, and is absent otherwise |
| PdfParser.Veltureikningar | functions/parser.py:113-121 | The current accounts always carry their four keys, with the Varðan tiers nested under `vordureikningar` |
| PdfParser.MarkmidColumns | functions/parser.py:128-133 | Unlike every other two-column row, `markmi_app` puts the first captured rate under `unindexed`; the row appears only with two columns |
| PdfParser.Sparireikningar | functions/parser.py:123-158 | The savings dict begins with `kjorbok`, and has 14 entries exactly when the goal-savings row has two columns (13 otherwise) |
| PdfParser.ForeignCurrency | functions/parser.py:161-169 | Currency keys are distinct and drawn from the ten listed codes |
| PdfParser.ForeignCurrencyLookup | functions/parser.py:161-169 | A currency is listed exactly when its row has three columns, and then holds `unbound`, `3_months` and `6_months` in column order |
| PdfParser.ParseDepositAccounts | functions/parser.py:104-171 | Deposits always have exactly `veltureikningar`, `sparireikningar` and `foreign_currency` |
| PdfParser.FixedRowColumns | functions/parser.py:187-222 | A fixed-rate mortgage row is kept only with all three periods, in column order |
| PdfParser.FixedRowsComplete | functions/parser.py:187-222 | When every row of a fixed-rate table is complete, every key is listed, in table order |
| PdfParser.FixedRowsOmit | functions/parser.py:187-222 | A row without three columns leaves no key behind |
| PdfParser.ParseMortgageLoans | functions/parser.py:173-244 | Mortgages always have `unindexed{fixed_rates, variable_rates, old_loans}` and `indexed{fixed_rates, old_loans}` |
| PdfParser.VehicleKeysAgree | functions/parser.py:255-270 | The electric and other-vehicle dicts list the same rows, in the same order |
| PdfParser.VehicleColumnsAgree | functions/parser.py:255-270 | Entry i of the electric dict and entry i of the other dict come from one row: its first and its second rate |
| PdfParser.ParseVehicleLoans | functions/parser.py:246-272 | Vehicle loans always have `electric_vehicles` and `other_vehicles`, with the same keys |
| PdfParser.RateClasses | functions/parser.py:280-288 | Rate-class keys are distinct and are `kjorvaxtaflokkur_0` to `kjorvaxtaflokkur_9` |
| PdfParser.RateClassLookup | functions/parser.py:280-288 | Rate class c is listed exactly when its row has two columns, and then holds them as `indexed` then `unindexed` |
| PdfParser.RateClassKeyInjective | functions/parser.py:285 | Different rate classes never share a key |
| PdfParser.ParseBondsAndLoanAgreements | functions/parser.py:274-298 | The rate classes come first, followed by six special agreements, each `{indexed, unindexed}` |
| PdfParser.ParseShortTermLoans | functions/parser.py:300-318 | Both `overdrafts` (six rows) and `credit_cards` are always present |
| PdfParser.ParsePenaltyInterest | functions/parser.py:320-322 | A penalty rate implies the penalty pattern matched |
| PdfParser.Sections | functions/parser.py:419-427 | The seven sections, in `parse_all`'s order, with the date from the date scanner and the penalty rate from its pattern |
| PdfParser.ParseAll | functions/parser.py:396-430 | An empty text gives `{}`; any other text gives exactly the seven top-level keys |
| IcelandicDates.MonthNumberOfName | functions/parser.py:57-61 | Each of the twelve Icelandic month names maps back to its own month number |
| IcelandicDates.MonthNumber | functions/parser.py:57-61 | A month number is returned only for one of the twelve names, and that name is the month's |
| IcelandicDates.ScanDateAtSpec | functions/parser.py:63-64 | The hand-written scanner finds a date at a position exactly when the pattern `(\d{1,2})\.\s*(\w+)\s+(\d{4})` can match there, and every way it can match captures the same groups |
| IcelandicDates.ScanComplete | functions/parser.py:63-64 | Whatever cut points a match uses, the scanner cuts at the same places |
| IcelandicDates.FirstMatch | functions/parser.py:64 | `re.search` finds the leftmost position where the pattern matches, and none when there is none |
| IcelandicDates.FirstMatchIs | functions/parser.py:64 | A match with none before it is the one the search returns |
| IcelandicDates.NoDigitsNoDate | functions/parser.py:63 | No date starts in a stretch without digits |
| IcelandicDates.DateOfFields | functions/parser.py:66-77 | A date is produced exactly when the month name is known and the triple is a real calendar date, and it is that date printed `YYYY-MM-DD` |
| IcelandicDates.ParseEffectiveDate | functions/parser.py:46-79 | Any date returned is the `full-date` (section 5.6 of RFC 3339) of a valid date |
| IcelandicDates.ParseEffectiveDateFirstOnly | functions/banks/landsbankinn.py:83-107 | Only the first match of the lower-cased text decides: the result is that match's date, or nothing |
| IcelandicDates.ExampleOctober | functions/parser.py:56-79 | "gildir frá 24. október 2025" gives "2025-10-24" |
| IcelandicDates.ExampleImpossibleDateHidesLaterOne | functions/parser.py:64-79 | "31. febrúar 2025, 1. mars 2025" gives None: the first match is no date, and the later valid one is never tried |
| IcelandicDates.NoFebruary31 | functions/parser.py:73-78 | 31 February is rejected in every year |
| IcelandicDates.FirstMatchDecides | functions/parser.py:63-79 | For text already in lower case, the first match's fields decide the result |
| Calendar.DaysInMonth | functions/parser.py:73 | Month lengths are 28 to 31, with 29 exactly for February of a leap year (section 5.7 of RFC 3339) |
| Calendar.FormatDate | functions/parser.py:77 | `strftime('%Y-%m-%d')` gives ten characters: digits with dashes at positions 4 and 7 |
| Calendar.FormatDateFields | functions/parser.py:77 | The three fields of a printed date read back as the date |
| Calendar.FormatDateInjective | functions/parser.py:77 | Different dates never print the same |
| Calendar.FromOrdinalOfOrdinal | functions/firestore_manager.py:84-85 | Every valid date survives the trip to its day count and back |
| Calendar.FromWallMicrosOfWallMicros | functions/firestore_manager.py:84-85 | A valid wall clock survives the trip to microseconds and back, as `timestamp`/`fromtimestamp` do |
| Calendar.FormatTimestamp | functions/firestore_manager.py:228-232 | `strftime("%Y-%m-%dT%H:%M:%SZ")` gives the date, then `T`, the time with colons, and `Z` (section 5.6 of RFC 3339) |
| Calendar.FormatTimestampFields | functions/firestore_manager.py:228 | The printed hour, minute and second read back as the clock's |
| Numbers.ParseFloatAccepts | functions/parser.py:98-99 | `float()` yields a number exactly for decimal numerals |
| Numbers.RenderRoundTrip | functions/parser.py:98-99 | Printing a rate with a point and reading it back with `float()` gives the same rate |
| Numbers.PointedGroup | functions/banks/arionbanki.py:204 | Two digit strings joined by `.` or `,` become `whole.frac` once `,` is replaced by `.` |
| Islandsbanki.NormalizeKey | functions/banks/islandsbanki.py:45-81 | The key has only `[a-z0-9_]`, no "__", and no leading or trailing "_"; empty input gives "" |
| Islandsbanki.NormalizeKeyIdempotent | functions/banks/islandsbanki.py:45-81 | Normalising twice is normalising once |
| Islandsbanki.NormalizeKeyExample | functions/banks/islandsbanki.py:51-81 | " Þ  ð!" becomes "th_d": transliteration, spaces to "_", deletion of other characters, collapsing and stripping |
| Islandsbanki.ParsePercentage | functions/banks/islandsbanki.py:83-92 | A rate is returned exactly when the cleaned cell is a decimal numeral |
| Islandsbanki.ParsePercentageRendered | functions/banks/islandsbanki.py:83-92 | A rate printed with a comma or a point and a `%` reads back as itself |
| Islandsbanki.ReadRow | functions/banks/islandsbanki.py:219-240 | A kept row always has a non-empty normalised key |
| Islandsbanki.FreshKey | functions/banks/islandsbanki.py:242-246 | The key chosen is unused. It is the row's key exactly when that key is free; otherwise it is the first of `key_2`, `key_3`, … not yet used, every smaller suffix being taken |
| Islandsbanki.ParseTableRowsEntries | functions/banks/islandsbanki.py:214-253 | The row dict has one entry per kept row, in row order, under distinct keys, so no earlier row is ever overwritten |
| Islandsbanki.RateValueShape | functions/banks/islandsbanki.py:248-251 | One parsed rate is stored as a number; several as the list of them in cell order |
| Islandsbanki.FirstFittingIsFirst | functions/banks/islandsbanki.py:94-115 | The heading walk returns the first acceptable text, and "" exactly when there is none |
| Islandsbanki.GetTableHeading | functions/banks/islandsbanki.py:94-115 | The heading is "" or an acceptable text |
| Islandsbanki.GetTableHeadingPriority | functions/banks/islandsbanki.py:94-115 | An h2–h5 heading wins; the other tags are read only when there is none; "" exactly when neither group has one |
| Islandsbanki.SpacedAtExact | functions/banks/islandsbanki.py:131-139 | Reading the whitespace greedily loses no match of `before\s*after` |
| Islandsbanki.ExtractTablesByKeywordsSections | functions/banks/islandsbanki.py:117-141 | The result has exactly the map's keys in map order. Under each key are the tables, in document order, that have a non-empty heading whose first matching key it is |
| Islandsbanki.SectionEmpty | functions/banks/islandsbanki.py:117-141 | A key that no table is classified under receives no table |
| Islandsbanki.MergeTableDataFirstWins | functions/banks/islandsbanki.py:143-152 | The merge holds every key once, and a key keeps the first table's value |
| Islandsbanki.UpdateAllLastWins | functions/banks/islandsbanki.py:363-373 | With `update`, the last table holding a key decides its value |
| Islandsbanki.ParseDeposits | functions/banks/islandsbanki.py:255-307 | Deposits always have `veltureikningar`, `sparireikningar` and `foreign_currency` |
| Islandsbanki.SparUnindexedNeverChosen | functions/banks/islandsbanki.py:268-274 | "óverðtrygg" contains "verðtrygg" and the indexed key is tried first, so no table is ever filed as unindexed savings |
| Islandsbanki.ParseDepositsUnindexedEmpty | functions/banks/islandsbanki.py:268-291 | Whatever the page holds, the unindexed savings rates come out empty |
| Islandsbanki.ParseDepositsOther | functions/banks/islandsbanki.py:293-300 | The general savings tables are used exactly when some exist and the indexed ones gave no rates |
| Islandsbanki.MortgagesUnindexedNeverChosen | functions/banks/islandsbanki.py:343-348 | No table is ever filed as unindexed mortgages |
| Islandsbanki.ParseLoans | functions/banks/islandsbanki.py:329-386 | `parse_loans` always returns its five keys |
| Islandsbanki.ParseLoansIndexed | functions/banks/islandsbanki.py:363-365 | Indexed mortgage rates are the rows of the indexed tables, with the later table winning a shared key |
| Islandsbanki.ParseLoansUnindexed | functions/banks/islandsbanki.py:367-373 | With no indexed rates, the unindexed ones are the rows of the generic mortgage tables, with the later table winning |
| Islandsbanki.LastRateSpec | functions/banks/islandsbanki.py:312-320 | The penalty rate from a row is its last parsable cell, and none when no cell parses |
| Islandsbanki.PenaltyAtComplete | functions/banks/islandsbanki.py:323 | The penalty scanner finds the match the pattern has, whatever cut points it uses |
| Islandsbanki.PenaltyAtSound | functions/banks/islandsbanki.py:323 | Every match the penalty scanner reports is a match of the pattern |
| Islandsbanki.GroupReadBack | functions/banks/islandsbanki.py:323-325 | The captured penalty numeral is read exactly |
| Islandsbanki.ParsePenaltyInterestFromText | functions/banks/islandsbanki.py:309-327 | When the row gives nothing, the penalty rate is the first text match's number, or none without a match |
| Islandsbanki.GildirAtComplete | functions/banks/islandsbanki.py:178-179 | The "gildir / tekur gildi" scanner finds every match the pattern has, with the same groups |
| Islandsbanki.GildirAtSound | functions/banks/islandsbanki.py:178-179 | Every match that scanner reports is a match of the pattern |
| Islandsbanki.EffectiveDate | functions/banks/islandsbanki.py:157-212 | The result is always the printed form of a valid date, never None |
| Islandsbanki.EffectiveDateNoDigits | functions/banks/islandsbanki.py:178-209 | A page without digits falls through both patterns to today's date |
| Islandsbanki.EffectiveDateExample | functions/banks/islandsbanki.py:178-190 | "gildir frá 24. október 2025" dates the page 2025-10-24 |
| Islandsbanki.ScrapeRatesShape | functions/banks/islandsbanki.py:391-420 | A failed fetch gives (None, None). A fetched page always gives the eight fields, the bank's name, a valid date and the page's URL |
| Arion.MakeAbsoluteUrl | functions/banks/arionbanki.py:60-69 | Empty stays empty; a stripped link starting with "http" is kept; any other link is joined to the rates page |
| Arion.MakeAbsoluteUrlFixed | functions/banks/arionbanki.py:60-69 | Making an absolute link absolute again changes nothing |
| Arion.FindPdfInDetailPage | functions/banks/arionbanki.py:71-101 | The result is None exactly when the page failed to load or no element attribute leads to a PDF; any result is a PDF link |
| Arion.GetPdfUrl | functions/banks/arionbanki.py:103-145 | The result is None exactly when no element leads to a PDF; any result is a PDF link |
| Arion.GetPdfUrlNeedsLabel | functions/banks/arionbanki.py:113-116 | Elements whose text lacks "vaxtatafla" or "einstaklinga" are never used |
| Arion.GetPdfUrlDirect | functions/banks/arionbanki.py:118-133 | The first usable attribute (href, data-file, data-file-url, data-url, skipping empty and javascript ones) of the first labelled element wins when it is a PDF |
| Arion.GetPdfUrlThroughDetail | functions/banks/arionbanki.py:129-138 | A usable link that is not a PDF is followed to the intermediate page's PDF |
| Arion.ParseRate | functions/banks/arionbanki.py:199-208 | No match gives None; a rate implies the first group was captured |
| Arion.ParseRateAccepts | functions/banks/arionbanki.py:199-208 | A match yields a rate exactly when its group, with "," replaced by ".", is a numeral |
| Arion.ParseRateReadBack | functions/banks/arionbanki.py:199-208 | A captured `\d+[,.]\d+` is read exactly: "3,25" gives 3.25 |
| Arion.CleanRateGroup | functions/banks/arionbanki.py:204-205 | Every group the pattern can capture reads back as the number it spells |
| Arion.KeptTiersLookup | functions/banks/arionbanki.py:241-244 | A tier is present, with its rate, exactly when that rate is non-zero, so 0.00 is dropped |
| Arion.KeptTiersAbsent | functions/banks/arionbanki.py:241-261 | A key that no tier carries never appears |
| Arion.SavingsAccountsLookup | functions/banks/arionbanki.py:246-267 | `fridindarreikningur` and `voxtur_30` appear exactly when not empty; `ibudasparnadur` always does |
| Arion.TierAccountPresent | functions/banks/arionbanki.py:232-264 | A tiered account is in the record exactly when one of its tiers has a non-zero rate |
| Arion.TierAt | functions/banks/arionbanki.py:241-264 | Each tier sits in its account, with its rate, exactly when that rate is non-zero |
| Arion.HousingSavingsAt | functions/banks/arionbanki.py:267 | Íbúðasparnaður is always present, possibly null |
| Arion.RowSectionAt | functions/banks/arionbanki.py:229-295 | Every one-rate key of the record sits in its section and holds what its own pattern gives, null when nothing is read |
| Arion.ParsedRowAt | functions/banks/arionbanki.py:210-297 | In the PDF's record every one-rate key holds `parse_rate` with its own pattern |
| Arion.PenaltyAndForeignAt | functions/banks/arionbanki.py:212-295 | The penalty rate is always present, and `foreign_currency` is always an empty dict |
| Arion.ParseEffectiveDate | functions/banks/arionbanki.py:168-197 | A dict gives its own `effective_date`. A text gives null exactly when the first date match is no date, and otherwise a printed valid date |
| Arion.PdfRecord | functions/banks/arionbanki.py:326-327 | The PDF record is the parsed sections followed by `effective_date`, and is never empty |
| Arion.ScrapeRates | functions/banks/arionbanki.py:299-329 | Truthy API data is returned as is, with the API URL. Data is truthy exactly when a URL comes with it, and that URL is the API's or a PDF's |
| Arion.ScrapeRatesNoPdf | functions/banks/arionbanki.py:306-324 | Without API data, a missing PDF link, download or text gives (None, None) |
| Arion.ScrapeRatesFromPdf | functions/banks/arionbanki.py:306-329 | Without API data, a PDF that is read gives its record plus its date, with the PDF's link |
| Landsbankinn.FirstRatesPdfIsFirst | functions/banks/landsbankinn.py:47-56 | The link is the first `href` in document order ending in ".pdf" and containing "vaxta", made absolute |
| Landsbankinn.GetPdfUrl | functions/banks/landsbankinn.py:37-60 | A failed request gives None; any link starts with "http" and ends with ".pdf" |
| Landsbankinn.ParseRates | functions/banks/landsbankinn.py:113-126 | The record built after the import has `bank_name` = "Landsbankinn" followed by the parser's seven sections, in order |
| Landsbankinn.ParseRatesIsParseAll | functions/banks/landsbankinn.py:113-126 | On a non-empty text the record is `parse_all`'s behind the bank's name |
| Landsbankinn.ScrapeRatesNeverReturnsData | functions/banks/landsbankinn.py:128-156 | A missing link, download or text gives (None, None); a document that gets as far as text raises `ImportError("attempted relative import beyond top-level package")` from `parse_rates`' first line, before any record is built |
| LegacyScraper.CollectLinks | functions/scraper.py:39-48 | Every collected link starts with "http" and ends with ".pdf" |
| LegacyScraper.CollectLinksEmpty | functions/scraper.py:41-43 | A link is collected exactly when some `href` passes the filter |
| LegacyScraper.GetLatestPdfUrl | functions/scraper.py:23-60 | The result is the first collected link, and there is one whenever a link was collected |
| LegacyScraper.LatestAgreesWithGetPdfUrl | functions/scraper.py:50-56 | The old and the new Landsbankinn scrapers choose the same document |
| LegacyScraper.ScrapeLatestPdf | functions/scraper.py:84-99 | Content and link are missing together; a result is the chosen link and its non-empty content |
| LegacyScraper.ScrapeNeedsLink | functions/scraper.py:91-94 | Nothing comes back unless the page offers a rates PDF |
| AiProcessor.EmptyStructure | functions/ai_processor.py:180-201 | The template has every top-level key |
| AiProcessor.EmptyStructureNulls | functions/ai_processor.py:180-216 | The template counts twelve gaps (two None leaves and ten empty dicts) and is not complete |
| AiProcessor.CountNullsZero | functions/ai_processor.py:203-216 | The count is zero exactly when there is no None and no empty container at any depth |
| AiProcessor.UnfenceNoFence | functions/ai_processor.py:67-73 | A reply without a fence is used as it is |
| AiProcessor.UnfenceJsonBlock | functions/ai_processor.py:70-71 | A "```json" block gives its stripped body, whatever surrounds it |
| AiProcessor.UnfencePlainBlock | functions/ai_processor.py:72-73 | Without "```json", the stripped text between the first two "```" is used |
| AiProcessor.Prompt | functions/ai_processor.py:107-178 | The prompt embeds at most the first 4000 characters of the text, between a fixed head and tail |
| AiProcessor.PromptIgnoresRest | functions/ai_processor.py:113 | Texts that agree on their first 4000 characters give the same prompt |
| AiProcessor.ParseBankData | functions/ai_processor.py:36-86 | A failed call gives the template. Whenever the reply decodes, the result is the decoded value itself, with no shape check; otherwise it is the template |
| AiProcessor.ParseBankDataUndecodable | functions/ai_processor.py:75-86 | A reply that does not decode gives the template, which counts twelve gaps |
| AiProcessor.ParseBankDataFenced | functions/ai_processor.py:67-78 | A fenced reply is decoded from the block's body alone |
| AiProcessor.ParseBankDataIgnoresRest | functions/ai_processor.py:49 | The result does not depend on the text past 4000 characters |
| AiProcessor.Enhance | functions/ai_processor.py:88-105 | The record comes back unchanged, whatever its gap count |
| Registry.AvailableBanks | functions/banks/__init__.py:39-43 | There are exactly three distinct bank ids |
| Registry.Load | functions/banks/__init__.py:17-35 | A class loads exactly for a registered id, and carries that id |
| Registry.GetScraperClass | functions/banks/__init__.py:17-35 | The result is the loaded class, now cached; an unknown id gives None and leaves the cache unchanged; cached entries are never replaced |
| Registry.GetScraperClassMemoised | functions/banks/__init__.py:19-35 | A second lookup returns the same class and changes nothing |
| Registry.GetBankScraper | functions/banks/__init__.py:46-66 | An unknown id is a `ValueError` naming the known banks; a registered id yields a scraper with that id |
| Registry.RegisteredBanksLoad | functions/banks/__init__.py:22-33 | Every registered id yields a scraper whose `bank_id` is that id |
| Registry.ModuleGetAttr | functions/banks/__init__.py:70-78 | Only the three class names resolve; any other name is an `AttributeError` that leaves the cache unchanged |
| Json.PutLookup | functions/banks/islandsbanki.py:246 | After `d[k] = v`, `k` maps to `v` and every other key maps as before |
| Json.SetDefaultLookup | functions/services/rate_service.py:122-125 | `setdefault` fills only an absent key and changes no other lookup |
| Json.UpdateLookup | functions/banks/islandsbanki.py:363-373 | After `d.update(g)`, `g`'s keys take `g`'s values and others keep theirs |
| Firestore.FormatResponse | functions/firestore_manager.py:202-248 | The response has exactly the seven keys, with `cached` = `from_cache`. The payload is the record's "data" or the record itself. The date and URL are the record's; a truthy id is kept. A record without "data" never fails and is stamped now |
| Firestore.FormatResponseWrapped | functions/firestore_manager.py:206-238 | A wrapped record without a stamp is stamped now, and falls back on its payload for its ids |
| Firestore.FormatResponseFallback | functions/firestore_manager.py:235-238 | A falsy `bank_id` takes the payload's own |
| Firestore.FormatResponseUtc | functions/firestore_manager.py:224-229 | A stored UTC `datetime` is printed as its own wall clock |
| Firestore.FallbackIdempotent | functions/firestore_manager.py:235-238 | Falling back twice is falling back once |
| Firestore.FormatResponseMetadata | functions/firestore_manager.py:235-238 | The ids of a response are what falling back on its own payload gives |
| Firestore.FormatResponseFixpoint | functions/firestore_manager.py:202-248 | Formatting a response again changes only `cached` |
| Firestore.SaveRates | functions/firestore_manager.py:107-145 | The write succeeds exactly with a client and a successful write. The document has the seven keys, `cached` = True, the bank's ids, and the data's date and payload |
| Firestore.SavedDocumentFormats | functions/firestore_manager.py:126-134 | A saved document, read back, formats to the bank, date and payload that were saved |
| Firestore.SliceStart | functions/firestore_manager.py:176 | `docs[k:]` keeps exactly the items whose index is at least `k`, where a negative `k` is compared with the item's negative index |
| Firestore.ClearOldCaches | functions/firestore_manager.py:147-185 | Deletes exactly the documents from index `keep_latest` on. Returns max(0, n − keep_latest) for keep_latest ≥ 0, and 0 without a client |
| Firestore.StoredInstantAsWritten | functions/firestore_manager.py:78-95 | As written: a text stamp is read by `fromisoformat`, and a value of any other kind cannot be aged |
| Firestore.StoredInstant | functions/firestore_manager.py:78-95 | As intended: a `datetime` stamp denotes its own instant |
| Firestore.StoredInstantShift | functions/firestore_manager.py:84-85 | As written, a `datetime` stamp is read the host's UTC offset late |
| Firestore.CachedRatesAsWritten | functions/firestore_manager.py:40-105 | As written: a served document comes from a client, has a truthy stamp, and is not expired by the as-written reading |
| Firestore.CachedRates | functions/firestore_manager.py:40-105 | A served document comes from a client, has a truthy stamp, and its true age is within the limit |
| Firestore.CachedRatesAge | functions/firestore_manager.py:95-98 | A document is served exactly while its true age is at most the limit; an age equal to the limit is still served |
| Firestore.ExpiredDocumentServed | functions/firestore_manager.py:84-98 | East of UTC, a document past its limit by any amount up to the host's offset is still served as written, while the corrected reading refuses it |
| RateService.GetScraper | functions/services/rate_service.py:99-110 | The id is stripped and lower-cased; a factory error or a missing scraper is an unknown bank |
| RateService.Scrape | functions/services/rate_service.py:112-128 | A raise or a falsy record is a service failure; a result always carries `bank_name` and `bank_id`, and has `source_url` exactly when the scraper gave one |
| RateService.ScrapeKeepsScraperValues | functions/services/rate_service.py:122-125 | Values the scraper set are never overwritten; the defaults fill exactly the gaps |
| RateService.EnsureMetadataAfterFormat | functions/services/rate_service.py:155-158 | `_ensure_metadata` changes nothing after `format_response` |
| RateService.FormatWrapper | functions/services/rate_service.py:143-151 | Formatting the fresh wrapper never fails and yields the payload's response, marked fresh |
| RateService.PersistAndFormat | functions/services/rate_service.py:130-153 | The payload is saved with "" for a falsy URL; pruning follows only a successful save; the response is the fresh one |
| RateService.GetBankRates | functions/services/rate_service.py:57-74 | An unknown bank fails with no side effects; any response has the seven keys; without a cache hit the bank is scraped, saved and formatted |
| RateService.CacheHitServed | functions/services/rate_service.py:63-69 | A cache hit without `force_refresh` gives the cached record formatted with `cached` = True, and nothing is saved or pruned |
| RateService.FreshScrapeSaved | functions/services/rate_service.py:63-74 | Without a hit (always under `force_refresh`) the scraped record is saved once. Pruning happens exactly when the save succeeded, and the response has `cached` = False |
| RateService.ScrapeFailure | functions/services/rate_service.py:112-119 | A scraper that raises or returns nothing makes the call fail with a service error and save nothing |
| RateService.LandsbankinnScrapeFailure | functions/services/rate_service.py:113-116 | Landsbankinn's scraper, given a document's text, fails the service with "Failed to scrape rates for Landsbankinn: " followed by the relative import's message |
| RateService.EntryOf | functions/services/rate_service.py:80-88 | Unknown-bank and service errors become entries; only other errors propagate |
| RateService.CollectRatesListed | functions/services/rate_service.py:79-88 | The loop completes exactly when every bank has an entry |
| RateService.CollectRatesEntries | functions/services/rate_service.py:79-88 | The loop records one entry per bank, in registry order |
| RateService.CollectRatesEffects | functions/services/rate_service.py:79-88 | Every bank's call is made, in order, and its effects are kept |
| RateService.AllRates | functions/services/rate_service.py:76-94 | The result has `banks` (one entry per bank, in order), `available_banks` and `fetched_at`, and fails only when an unexpected error propagates |

## Left out

- Network, HTML parsing, PDF extraction, downloads, `urljoin`, `json.loads`, the
  language-model call and the Firestore client are parameters. The model states
  what the code does with their answers, not what they answer.
- The regex engine is a parameter except for three fixed patterns:
  - the date pattern of `parse_effective_date`;
  - Íslandsbanki's "gildir / tekur gildi" pattern;
  - Íslandsbanki's penalty pattern.

  Those are hand-written scanners, proved to agree with their patterns. The
  flags (`re.IGNORECASE`, `re.DOTALL`) matter only inside the search parameter.
- `\w`, `\s` and `str.lower()` are modelled on ASCII plus the Latin-1 letters
  Icelandic uses. Full Unicode case mapping and character classes are not
  modelled.
- `\d` is modelled as the ASCII digits 0-9. In Python 3 it matches any Unicode
  decimal digit, and `int()`/`float()` read those digits too. So a date, a
  "gildir" date or a penalty rate written in, say, Arabic-Indic digits is found
  by the source but not by the scanners, and `float()` of such a numeral is not
  modelled. The scanners are proved to agree with their patterns only under
  this ASCII reading of `\d`.
- Numbers.ParseFloatAccepts: `float()` is modelled on decimal numerals with an
  optional sign. Exponents, `inf`/`nan` and digit underscores are not modelled.
  Percentages are exact decimals, not binary floating point.
- `strftime('%Y')` is modelled as four zero-padded digits. Python's output for
  years below 1000 depends on the platform.
- The clock is a parameter:
  - `datetime.now`/`utcnow` is a single UTC wall clock per call;
  - the host's time zone is a fixed `localOffset` in seconds, so daylight-saving
    changes are not modelled;
  - timestamps are exact microseconds.
- Arion.ParseRate: `parse_rate` raises `AttributeError` if the first group did
  not take part. The model reads that as None. Every Arion pattern has a
  mandatory group, so the case cannot arise.
- Arion `try_api`: a failed request, status or decode is folded into "no API
  data".
- Firestore.ClearOldCaches: a delete that fails midway through the loop is not
  modelled. For a negative `keep_latest` the code deletes the last
  |keep_latest| documents (Python slicing), and the model follows the code,
  not the "max(0, n − keep_latest)" reading.
- `get_all_banks_rates` (functions/firestore_manager.py:187-200) is not part of
  this model. The rate service does not call it.
- The rate service's cache and persistence manager are abstract:
  - the cached record per bank is a parameter;
  - so is whether a save succeeds;
  - saving and pruning are recorded as effects rather than performed.
- `list_supported_banks` is `Registry.AvailableBanks`.
- Configuration, environment variables and logging are not modelled.
- Landsbankinn.ParseRates: the record of functions/banks/landsbankinn.py:113-126
  is modelled as it would be built if line 112's `from ..parser import` succeeded,
  that is, under an import of the scrapers as `functions.banks`. No caller in the
  program imports them that way: `main.py` and the rate service import the
  top-level package `banks`, so line 112 raises `ImportError` and
  `Landsbankinn.ScrapeRates` raises with that message.
- `enhance_with_ai` (functions/banks/landsbankinn.py:154) is defined on no
  scraper class. It is never reached, because `parse_rates` raises first.
- The Íslandsbanki date fallback's `datetime.utcnow()` is the parameter `today`.
- The unindexed savings and unindexed mortgage buckets of Íslandsbanki can never
  receive a table. The model keeps the code as written and proves the buckets
  are dead; it does not redirect tables to them.
- The HTTP layer (`main.py`), the UI template, local test scripts, development
  tooling and configuration are outside the modelled core.

## Findings

| source | as written | input that shows it | evidently intended | confidence | as-written member | corrected member |
|---|---|---|---|---|---|---|
| functions/firestore_manager.py:84-85 | A stored `datetime` stamp goes through `datetime.fromtimestamp(ts)` with no zone. That gives the host's local wall clock, which line 92 then labels as UTC, so the stamp is read late by the host's UTC offset. | A document stamped 2025-01-01T00:00:00Z, read at 2025-01-02T01:00:00Z on a UTC+1 host with the default 24-hour limit. Its true age is 25 hours, but it is aged 24 hours and served. | `datetime.fromtimestamp(ts, tz=timezone.utc)`, as `format_response` does at line 225 | not executed | Firestore.CachedRatesAsWritten (with Firestore.StoredInstantAsWritten, Firestore.ExpiredDocumentServed) | Firestore.CachedRates (with Firestore.StoredInstant, Firestore.CachedRatesAge) |
