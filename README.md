# Queue dashboards of the Federal District UPAs, modelled in Dafny

The repository scrapes the public Power BI dashboards of the emergency care
units (UPAs) of the Federal District. For each unit it fetches the page,
reaches the rendered report and turns its labelled elements into typed
metrics:

- three patient counts (in the unit, waiting for regulation, waiting for a physician);
- a table of five risk colours (AZUL, VERDE, AMARELO, LARANJA, VERMELHO), each with a count and an average wait;
- the "ATUALIZADO EM" stamp.

The results are cached on disk with a time to live. All units are then
collected into one table, sorted by unit name, and a failing unit gets an
error row.

The model covers five pieces:

- **The parser** (`core/parser.py`): modules `Normalize`, `Patterns`,
  `Parser` and `ParserProperties`.
  - `_norm` is modelled with Python's whitespace class, case mapping and NFKD decomposition, restricted to U+0000 to U+00FF and the combining marks U+0300 to U+036F.
  - The regular expressions are written out as leftmost-match scanners.
  - `_pick_patient_count` and `parse_upa_dashboard` are loops (`PickPatientCount`, `MainLoop`, `FallbackPass`, `ParseDashboard`). Each is proved equal to a function that states what it computes (`PatientCount`, `MainPass`, `Fallbacks`, `Parse`).
  - The properties are lemmas over those functions.
  - A document is given as its elements (label and text) and its whole text.
- **The cache** (`core/storage.py`): module `Storage`.
  - A class `Cache` whose state is the cache file.
  - `set_cached` is a read-modify-write of that state.
  - `get_cached` is a lookup at a given time `now`.
- **The table assembly** (`app.py`): module `App`.
  - `_flatten_row` is a loop over the colours.
  - `_fetch_one` takes the cache-hit or the fetch-parse-store branch.
  - `load_all_upas` visits the units one after the other, in the order their fetches complete, and then builds the table: main columns first, stable sort by name.
- **The fetch decisions** (`core/scraper.py`): module `Scraper`.
  - The pure helpers: flag words, rendering markers, frame addresses, longest address, debug tag.
  - The retry loop of the plain HTTP fetch, over the outcome of each attempt.
  - The browser fetch as a decision sequence over a trace of what the driver does: top page, each frame in order, longest frame address. It logs frame switches and the driver's quit.
  - The mode dispatch.
- **The certificate setting** (`settings.py`): module `Settings`.

Shared modules:

- `Chars`: Python's character classes, `str.lower`, `str.strip`, `str.find` and `in`.
- `Outcomes`: `Option` and `Result`.

Where the behaviour differs from what a reader might expect, the model follows the code:

- A card field is reassigned by every node that matches it. The last match wins, even when it carries no count.
- The fallback takes its index in the normalised text but cuts its window from the raw text.
- The retry loop catches the exception of `raise_for_status`, so a 404 is retried like a 503 rather than ending the fetch.

## Model

| member | source | states |
|---|---|---|
| Chars.IsSpace | core/parser.py:18 | the whitespace class of `\s`, `str.isspace` and `str.strip`: apart from the space, NEL and the no-break space it holds only control characters and characters from U+1680 on; `CollapseSpec` and `StripSpec` state what is done with it |
| Chars.IsAlnum | core/scraper.py:180 | `str.isalnum` on one character takes every digit and never whitespace, `_` or `-`; `KeepTagChars` states the filter built on it |
| Chars.IsWordChar | core/parser.py:30 | the `\w` class behind `\b` takes every digit and `_`, and never whitespace or `-`; `FindClockFrom` and `TokenSpans` place the word boundaries with it |
| Chars.Lower | core/scraper.py:47 | `str.lower` on a character: the result is never upper case, an upper-case letter becomes lower case, anything else is kept |
| Chars.LowerAll | app.py:32 | `str.lower` on a string keeps its length and lowers every character in place |
| Chars.Fold | core/parser.py:15-17 | NFKD decomposition, removal of the characters of non-zero combining class and upper-casing of one character never yields a lower-case letter |
| Chars.FoldFractionsAndJoiner | core/parser.py:15-16 | a vulgar fraction decomposes into digit, fraction slash, digit; the combining grapheme joiner, of combining class 0, is kept; an accent is dropped |
| Chars.StripStartSpec | core/parser.py:18 | `lstrip` leaves a suffix, everything it dropped is whitespace, and the rest does not start with whitespace |
| Chars.StripEndSpec | core/parser.py:18 | `rstrip` leaves a prefix, everything it dropped is whitespace, and the rest does not end with whitespace |
| Chars.Strip | core/parser.py:66 | `str.strip` never lengthens the text, and what it keeps neither starts nor ends with whitespace; `StripSpec` proves it is exactly the slice between the leading and the trailing whitespace |
| Chars.StripSpec | core/scraper.py:270 | `strip` keeps the slice between the leading and the trailing whitespace, and gives "" exactly when the string is all whitespace |
| Chars.CanonOfPlain | core/scraper.py:47 | a word without whitespace or capitals is its own `strip().lower()` |
| Chars.FindFrom | core/parser.py:145 | `find` from an index gives the first occurrence at or after it, or -1 when there is none |
| Chars.Find | core/parser.py:145 | `find` gives -1 exactly when the pattern never occurs, and otherwise the first occurrence |
| Chars.OccursFromIff | core/parser.py:97 | the pattern occurs from an index on exactly when `find` from that index succeeds |
| Chars.ContainsIff | core/parser.py:97 | `p in s` holds exactly when `s.find(p) != -1`, and exactly when `p` occurs somewhere in `s` |
| Normalize.FoldAll | core/parser.py:15-17 | the folded, upper-cased text contains no lower-case letter |
| Normalize.CollapseSpec | core/parser.py:18 | after `re.sub(r"\s+", " ")` no two whitespace characters are adjacent and only plain spaces remain; no lower-case letter appears and the first character is whitespace exactly when it was before |
| Normalize.Norm | core/parser.py:12-19 | `_norm("")` is ""; otherwise the result has no lower-case letter, no leading or trailing whitespace, no run of whitespace and no whitespace other than the plain space |
| Normalize.SliceKeeps | core/parser.py:147-148 | a slice of a normalised text keeps its character-level properties |
| Patterns.FindClockFrom | core/parser.py:30 | the leftmost word-bounded `DD:DD:DD` from an index on, or none at or after it |
| Patterns.FirstClock | core/parser.py:30 | `re.search` of the word-bounded clock gives the leftmost match, and none exactly when no match exists |
| Patterns.StripClocksCopies | core/parser.py:40 | until `re.sub` of the clocks writes its first space, it copies its input |
| Patterns.NoClockAtFront | core/parser.py:40 | the text after clock removal never starts with a clock reading |
| Patterns.StripClocks | core/parser.py:40 | `re.sub` of the clock readings never lengthens the text; `NoClockLeft` proves that no clock reading survives it |
| Patterns.NoClockLeft | core/parser.py:40 | no clock reading is left anywhere after `re.sub(r"\d{2}:\d{2}:\d{2}", " ")` |
| Patterns.RunEnd | core/parser.py:41 | the end of a digit run: every character before it is a digit and the next one is not |
| Patterns.IntCandidates | core/parser.py:38-42 | `_extract_int_candidates` yields at most one integer per character; `IntCandidatesSound` proves they are the values of the word-bounded digit runs of the text after clock removal, every run once and left to right |
| Patterns.SpacesEnd | core/parser.py:24 | the end of a whitespace run: every character before it is whitespace and the next one is not |
| Patterns.SearchStampFrom | core/parser.py:24 | `re.search` of the stamp pattern gives the capture of the leftmost match, and none exactly when no position matches |
| Parser.ColorSetIsColors | core/parser.py:9 | the colour set holds exactly the five colours |
| Parser.ExtractUpdatedAt | core/parser.py:22-25 | `updated_at` is absent exactly when the stamp pattern matches nowhere in the normalised text |
| Parser.ExtractTime | core/parser.py:28-35 | `_extract_time` gives "IMEDIATO" or a word-bounded clock reading cut from the text; `ExtractTimeSpec` proves the leftmost clock wins and "IMEDIATO" is given exactly when there is no clock and the normalised text contains it |
| Parser.Plausibles | core/parser.py:59 | the filter keeps only plausible counts: 0 to 9999 and not 2020 to 2026 |
| Parser.PatientCount | core/parser.py:45-60 | `_pick_patient_count` gives none or a plausible count; `PatientCountSpec` proves it is the first plausible candidate, none exactly when there is none |
| Parser.PickPatientCount | core/parser.py:45-60 | the loop that gathers the candidates of each non-empty text and filters them gives `PatientCount`, the first plausible candidate |
| Parser.AriaNodes | core/parser.py:63-68 | the labelled nodes are no more than the elements and each has a non-empty label |
| Parser.FirstColorFrom | core/parser.py:114-118 | the colour found from an index is the first in `COLORS` order that occurs in the label or the text; none means that no later colour occurs |
| Parser.FirstColor | core/parser.py:114-118 | a node's colour is one of the five, the first in `COLORS` order that occurs; none exactly when no colour occurs |
| Parser.Decide | core/parser.py:97-124 | the priority chain: unit card iff "PACIENTES NA UNIDADE"; regulation card iff not that and "AGUARDANDO REGULACAO"; physician card iff neither and ATENDIMENTO, MEDICO and PACIENT or AGUARD; classification iff no card, some colour and the CLASSIF/RISCO/TEMPO/PACIENT gate, with the first colour |
| Parser.Merge | core/parser.py:130-135 | each field of an entry keeps its value when it has one and otherwise takes the new value |
| Parser.ApplyNode | core/parser.py:96-135 | one node of the main loop keeps the colour keys and `updated_at`; `ApplyNodeScalar` and `ApplyNodeSlot` prove that it reassigns the matched card or fills only the empty fields of the matched colour |
| Parser.NodeCount | core/parser.py:127 | a node's count is none or plausible; `PatientCountSpec` proves it is the first plausible candidate of the raw label, then the raw text |
| Parser.NodeTempo | core/parser.py:126 | a node's wait is none, "IMEDIATO" or eight characters long; `NodeTempoShaped` proves it is none, "IMEDIATO" or a clock reading |
| Parser.MainPass | core/parser.py:91-135 | the main pass keeps the colour keys and never touches `updated_at` |
| Parser.MainPassStep | core/parser.py:91-135 | one more node extends the main pass by that node's step |
| Parser.PySlice | core/parser.py:147 | Python's slice with both ends clamped to the string |
| Parser.Window | core/parser.py:147 | the fallback window is the raw text from `max(0, idx-120)` to `idx+220`, clamped, at most 340 characters |
| Parser.FallbackColor | core/parser.py:143-151 | the fallback for one colour keeps every key, every other colour's entry and every card field |
| Parser.Fallbacks | core/parser.py:142-151 | the fallback over the colours keeps the keys and every field outside the table |
| Parser.Initial | core/parser.py:82-88 | the starting result has exactly the five colour keys |
| Parser.Parse | core/parser.py:71-153 | every parse has exactly the five colour keys |
| Parser.DetectColor | core/parser.py:114-118 | the colour loop with `break` finds the first colour in `COLORS` order |
| Parser.FallbackStep | core/parser.py:143-151 | one iteration of the fallback loop is `FallbackColor` for that colour |
| Parser.FallbacksStep | core/parser.py:142-151 | the fallback over one more colour is one more step, and that colour is still a key |
| Parser.FallbackPass | core/parser.py:142-151 | the fallback loop over `COLORS` is `Fallbacks` over all of `COLORS` |
| Parser.ProcessNode | core/parser.py:92-135 | one iteration of the main loop, with its `continue`s, is `ApplyNode` for that node |
| Parser.ColorStep | core/parser.py:112-135 | once no card matched, the colour detection, the gate and the entry update together have the effect `ApplyNode` gives the node |
| Parser.ClassifyNode | core/parser.py:126-135 | the node's count and wait fill only the still-empty fields of the colour's entry, and nothing outside the table changes |
| Parser.MainLoop | core/parser.py:91-135 | the main loop over the labelled nodes is `MainPass` over those nodes |
| Parser.ParseDashboard | core/parser.py:71-153 | `parse_upa_dashboard`, updating the result in place, gives `Parse` of the document |
| ParserProperties.StampShape | core/parser.py:24 | in a text without whitespace runs a stamp match is `DD/DD/DDDD DD:DD:DD` with one space |
| ParserProperties.UpdatedAtShape | core/parser.py:22-25 | a present `updated_at` always has the one-space stamp shape, because it is cut from the normalised text |
| ParserProperties.ExtractTimeSpec | core/parser.py:28-35 | the first word-bounded clock reading wins, even over "IMEDIATO"; without one the result is "IMEDIATO" exactly when the normalised text contains it, and none otherwise; every result is none, "IMEDIATO" or a clock reading |
| ParserProperties.TokenSpans | core/parser.py:41 | each span `re.findall(r"\b\d+\b")` converts is a word-bounded run of digits at or after the start |
| ParserProperties.TokenEndsAtRunEnd | core/parser.py:41 | a match of `\b\d+\b` is the whole run of digits from where it starts |
| ParserProperties.NoTokenInsideRun | core/parser.py:41 | no match of `\b\d+\b` starts strictly inside a run of digits |
| ParserProperties.SpansOrdered | core/parser.py:41 | each span `re.findall(r"\b\d+\b")` converts ends at or before the next one starts |
| ParserProperties.SpansComplete | core/parser.py:41 | every word-bounded run of digits at or after the start is one of the spans |
| ParserProperties.SpansOrderedComplete | core/parser.py:41 | the spans come left to right without overlapping and include every word-bounded run of digits at or after the start: `findall` misses none |
| ParserProperties.ValuesOfCons | core/parser.py:41-42 | a token in front of the spans puts its value in front of the values |
| ParserProperties.TokensSound | core/parser.py:41-42 | the integers found are the values of the spans, one for one, the `m`-th integer from the `m`-th span |
| ParserProperties.IntCandidatesSound | core/parser.py:38-42 | the candidates are the values of the word-bounded digit runs of the text after clock removal, every such run is a candidate and they come left to right, and that text holds no clock reading, so no clock digit is ever a candidate |
| ParserProperties.PlausiblesFirst | core/parser.py:59-60 | the filter is empty exactly when no candidate is plausible; otherwise its head is the first plausible candidate |
| ParserProperties.PatientCountSpec | core/parser.py:45-60 | `_pick_patient_count` gives none exactly when no candidate is plausible; otherwise the first plausible candidate, in 0..9999 and never 2020..2026 |
| ParserProperties.GatherSnoc | core/parser.py:54-56 | one more text appends its candidates |
| ParserProperties.GatherAppend | core/parser.py:54-56 | the candidates of two runs of texts are concatenated in order |
| ParserProperties.PlausiblesAppend | core/parser.py:59 | the filter distributes over concatenation |
| ParserProperties.EarlierTextsWin | core/parser.py:54-60 | once the first texts yield a count, the later texts are never consulted |
| ParserProperties.ClockDigitsIgnored | core/parser.py:38-60 | "00:10:00 7" gives the count 7, not a digit of the clock |
| ParserProperties.AriaNodesAppend | core/parser.py:63-68 | the labelled nodes are a filter over the elements in document order: an element yields its node exactly when its stripped label is not blank |
| ParserProperties.LastIndex | core/parser.py:91-110 | the last index whose item satisfies a test, or -1 when none does |
| ParserProperties.LastMatch | core/parser.py:91-110 | the last node that takes a given branch, or -1 when none does |
| ParserProperties.ApplyNodeScalar | core/parser.py:97-110 | a node that takes a card's branch replaces that card's field by its count, and any other node leaves the field alone |
| ParserProperties.ScalarLastWins | core/parser.py:91-110 | a card field holds the count of the last node that matched it, whatever earlier nodes found |
| ParserProperties.LaterMatchOverwrites | core/parser.py:97-110 | there is no overwrite guard: a later matching node replaces the field, with nothing when it carries no plausible count |
| ParserProperties.ParseScalars | core/parser.py:71-153 | in the parse each card is decided by the last matching node of the document, and is none when no node matched |
| ParserProperties.FirstCountSnoc | core/parser.py:130-135 | one more node offers its count and its wait after those already offered |
| ParserProperties.ApplyNodeSlot | core/parser.py:126-135 | one node fills a colour's count and wait only where they are still empty |
| ParserProperties.SlotFirstWins | core/parser.py:91-135 | each field of a colour's entry is the first non-null value offered to it, in document order |
| ParserProperties.SlotNeverOverwritten | core/parser.py:129-135 | a filled count or wait survives every later node |
| ParserProperties.FallbackColorSpec | core/parser.py:143-151 | the fallback fills a colour exactly when its count is empty, the colour occurs in the normalised text and the raw window mentions CLASSIF, RISCO or TEMPO: the count then comes from the window, a non-empty wait is kept, and nothing else changes; in every other case the result is the input |
| ParserProperties.FallbacksKeepFilled | core/parser.py:143 | an entry whose count is filled passes the fallback unchanged |
| ParserProperties.FallbacksKeepTempo | core/parser.py:151 | the fallback never replaces a non-empty wait |
| ParserProperties.CountOkOf | core/parser.py:59-60 | a picked count is none or plausible |
| ParserProperties.NodeTempoShaped | core/parser.py:126 | a node's wait is none, "IMEDIATO" or a clock reading |
| ParserProperties.ApplyNodeKeeps | core/parser.py:96-135 | one node keeps the result well formed |
| ParserProperties.MainPassKeeps | core/parser.py:91-135 | the main pass keeps the result well formed |
| ParserProperties.FallbackColorKeeps | core/parser.py:143-151 | the fallback of one colour keeps the result well formed |
| ParserProperties.FallbacksKeep | core/parser.py:142-151 | the whole fallback keeps the result well formed |
| ParserProperties.ParseWellFormed | core/parser.py:71-153 | every parse has exactly the five colour keys, every count none or plausible, and every wait none, "IMEDIATO" or a clock reading |
| ParserProperties.ParseRespectsMainPass | core/parser.py:137-151 | a count the main pass found stays with its whole entry, and a non-empty wait it found stays |
| Storage.Stamp | core/storage.py:36 | an entry's stamp is its `_ts`, and 0 when it has none |
| Storage.Lookup | core/storage.py:31-39 | a miss when the url has no entry or an empty one, or the entry is more than `ttl` seconds old; otherwise the stored data |
| Storage.LoadCache | core/storage.py:15-22 | a missing or unreadable cache file loads as the empty cache; `MissingFileStartsEmpty` proves that nothing is then a hit |
| Storage.Cache.Load | core/storage.py:32 | `load_cache()` on the current file: the stored map, or the empty map when the file is missing or unreadable |
| Storage.Cache.GetCached | core/storage.py:31-39 | a hit is an entry of the loaded file at most `ttl` seconds old; `Lookup` states all the miss cases |
| Storage.Store | core/storage.py:42-45 | the written map adds the url with a fresh stamp and the data, and keeps every other entry |
| Storage.Cache.SetCached | core/storage.py:42-45 | the file now holds the loaded map with the url's entry replaced; the entry is a hit for `ttl` seconds; every other url keeps its presence and its entry |
| Storage.StoreThenLookup | core/storage.py:31-45 | an entry stored at time `t` is a hit at `later` exactly when `later - t <= ttl`: an entry `ttl` seconds old is a hit, one second more is a miss |
| Storage.StoreKeepsOthers | core/storage.py:42-45 | storing one url never changes what another url looks up |
| Storage.MissingStampIsZero | core/storage.py:36 | an entry without `_ts` ages as if written at time 0 |
| Storage.MissingFileStartsEmpty | core/storage.py:15-22 | a missing or unreadable cache file caches nothing |
| Settings.GetVerifySsl | settings.py:3-8 | with `VERIFY_SSL` unset certificates are verified; the lemmas below prove the answer depends only on the stripped, lower-cased value and is true exactly for "1", "true", "yes" and "y" |
| Settings.VerifySslUnset | settings.py:8 | with `VERIFY_SSL` unset, certificates are verified |
| Settings.VerifySslCanonical | settings.py:8 | the answer depends only on the stripped, lower-cased value |
| Settings.VerifySslPlain | settings.py:8 | for a word without whitespace or capitals, the answer is whether it is "1", "true", "yes" or "y" |
| Settings.VerifySslOn | settings.py:8 | "on" switches verification off |
| Scraper.EnvBool | core/scraper.py:46-52 | an unset flag gives its default; `EnvWord` and `EnvBoolVersusVerifySsl` prove how each word is read |
| Scraper.EnvWord | core/scraper.py:48-52 | a yes word gives true, a no word gives false, any other word the default |
| Scraper.OffIsNotOn | core/scraper.py:48-51 | no word is both a yes and a no word |
| Scraper.EnvBoolUnset | core/scraper.py:46-52 | an unset variable gives the default |
| Scraper.EnvBoolVersusVerifySsl | core/scraper.py:46-52 | a flag with default false reads the words as the certificate setting does, except that "on" is a yes only for the flag |
| Scraper.IsPowerBiRendered | core/scraper.py:221-232 | a page counts as rendered only when one of the seven markers occurs in it; `RenderedIff` proves the converse |
| Scraper.AnyMarkerFromIff | core/scraper.py:221-232 | some marker from an index on occurs exactly when one of those markers is a substring |
| Scraper.RenderedIff | core/scraper.py:221-232 | a page counts as rendered exactly when one of the seven markers is a substring of it |
| Scraper.GetIframeSrc | core/scraper.py:269-273 | a frame address is never empty, and there is none exactly when both `src` and `data-src` are blank after stripping |
| Scraper.GetIframeSrcSpec | core/scraper.py:269-273 | the stripped `src` when it is not blank, else the stripped `data-src` when that is not blank, else none; never "" and never surrounded by whitespace |
| Scraper.BestSrc | core/scraper.py:363-367 | the fallback address is some frame's usable address, and there is none exactly when no frame has one; `BestSrcSpec` proves it is the first of the longest |
| Scraper.BestIndex | core/scraper.py:363-367 | the chosen position holds an address, none is longer and every earlier one is shorter; -1 exactly when no frame has an address |
| Scraper.BestOfStep | core/scraper.py:366-367 | one more address replaces the best so far only when it is strictly longer |
| Scraper.BestSrcSpec | core/scraper.py:363-369 | the fallback address is a frame's usable address, no address is longer and every earlier one is shorter; none exactly when no frame has an address |
| Scraper.BestUpToSpec | core/scraper.py:364-367 | keeping the longer address one frame at a time ends at the first longest address |
| Scraper.PickBestSrc | core/scraper.py:363-367 | the best-address loop gives the first of the longest usable addresses |
| Scraper.KeepTagChars | core/scraper.py:180 | the kept characters are alphanumerics, `_` or `-`, no more than the input, and a string of such characters is kept whole |
| Scraper.SafeTag | core/scraper.py:180 | the debug tag has 1 to 90 characters, all lower-case alphanumerics, `_` or `-`; it is "page" when nothing survives the filter and otherwise the first 90 characters of what survived, all of them when fewer |
| Scraper.SafeTagIdempotent | core/scraper.py:180 | a safe tag is its own safe tag |
| Scraper.Requests | core/scraper.py:93-137 | the plain fetch makes at most `retries` requests and a success reports the url and the plain fetcher; `RequestsSpec` proves which attempt is returned and what a failure reports |
| Scraper.FetchRequests | core/scraper.py:109-137 | the retry loop gives `Requests`, the result and the number of requests, and sleeps only before attempts 2 onwards |
| Scraper.FirstAcceptedFrom | core/scraper.py:114-128 | the first accepted attempt in the range, with every earlier one rejected; none when none is accepted |
| Scraper.LastStatusShift | core/scraper.py:120 | the status the loop keeps after one attempt is the last one of the remaining attempts |
| Scraper.LastExcShift | core/scraper.py:130-131 | the exception the loop keeps after one attempt is the last one of the remaining attempts |
| Scraper.RequestsFrom | core/scraper.py:114-137 | the retry loop from a given attempt makes no request past `retries`, uses them all when it fails, and a success reports the url and the plain fetcher; `RequestsFromSpec` proves which response is returned and what a failure carries |
| Scraper.RequestsFromSpec | core/scraper.py:114-137 | from any attempt on, the loop returns the first accepted response, or fails with the last status and the last exception after every remaining attempt |
| Scraper.RequestsSpec | core/scraper.py:93-137 | at most `retries` requests; success exactly when some attempt is accepted, with the first such response; otherwise failure after `retries` requests with the last status seen (0 when nothing responded) |
| Scraper.NoAttemptsFails | core/scraper.py:114-137 | with `retries <= 0` the fetch fails at once without a request |
| Scraper.ErrorStatusIsRetried | core/scraper.py:125-132 | a 404 is retried like a 503: an accepted second answer is returned |
| Scraper.Selenium | core/scraper.py:279-406 | a browser success reports the url, status 200 and a browser fetcher; `SeleniumLifecycle`, `TopPageFirst`, `FirstRenderedFrameWins` and `BestSrcFallback` prove the order of the stages and the driver's lifetime |
| Scraper.FirstRendered | core/scraper.py:326-348 | the first frame whose probe shows Power BI, with no earlier one showing it; none exactly when no frame shows it |
| Scraper.ProbeFrames | core/scraper.py:326-360 | the frame loop finds the first rendered frame, keeps the last probe exception, and enters each frame from the top and leaves it again |
| Scraper.FetchFallback | core/scraper.py:362-392 | the fallback opens the best frame address, or fails with the last probe exception, or with the missing-address error when there is none |
| Scraper.FetchFrames | core/scraper.py:326-392 | the frame stage and the fallback give `FramesStage` |
| Scraper.FetchSelenium | core/scraper.py:279-406 | the browser fetch gives `Selenium`, the result and the driver log |
| Scraper.ProbeLogShape | core/scraper.py:329-360 | probing `n` frames logs back-to-top, enter frame `i`, back-to-top for each frame `i` in order |
| Scraper.ProbedLogShape | core/scraper.py:326-406 | after the frame loop the driver is quit last and only then, every entered frame is left next, and only probed frames are entered |
| Scraper.SeleniumLifecycle | core/scraper.py:279-406 | the driver is quit, as its last action, exactly when it was created, and every frame entered is left by the next action |
| Scraper.TopPageFirst | core/scraper.py:308-316 | a rendered top page is returned as `selenium-main` without entering any frame |
| Scraper.FirstRenderedFrameWins | core/scraper.py:326-348 | otherwise the first rendered frame is returned as `selenium-iframe` with its address, and no later frame is entered |
| Scraper.BestSrcFallback | core/scraper.py:362-392 | with no rendered frame the best address is opened and the fetch succeeds exactly when that page is reached; with no address it fails with the last probe exception, or the missing-address error when no probe raised |
| Scraper.ModeOf | core/scraper.py:433 | the mode is compared without capitals |
| Scraper.FetchHtml | core/scraper.py:412-449 | a success reports the url, and a plain-fetch result comes only from "requests" or from "auto" with a page that already shows Power BI; `FetchHtmlDispatch` proves which fetcher each mode reaches |
| Scraper.FetchHtmlDispatch | core/scraper.py:433-449 | "requests" uses the plain fetch with the given retries; "auto" returns the first accepted of two plain attempts exactly when that page already shows Power BI, and otherwise, a failed plain fetch included, the browser's result; every other mode uses the browser |
| Scraper.DefaultMode | core/scraper.py:433 | without a mode the mode is "powerbi" |
| Scraper.EmptyModeIsDefault | core/scraper.py:433 | an empty mode is the default mode |
| App.Flat | app.py:19-35 | a flattened row has sixteen cells; `FlatKeys`, `HeadKeys` and `FlatColor` prove their names and values |
| App.FlattenRow | app.py:19-35 | the loop over the colours builds `Flat`, the flattened row |
| App.ColorCellsStep | app.py:30-33 | one more colour appends its two cells |
| App.ErrorRow | app.py:62-81 | the error row has the unit's name and url, fourteen missing metric cells, then `erro` with the exception's text |
| App.ErrorKeys | app.py:62-81 | the error row's columns are the flat columns followed by `erro` |
| App.LowerColors | app.py:32-33 | the lower-cased colour names are azul, verde, amarelo, laranja, vermelho |
| App.ColorCellsAt | app.py:30-33 | the cells of the `k`-th colour are at `2k` and `2k+1` |
| App.FlatColor | app.py:29-33 | each colour's two cells are named after it in lower case and hold its count and its wait, both missing when the table has no entry for it |
| App.ColumnNames | app.py:32-33 | the colour columns are the lower-cased colour names with `_pacientes` and `_tempo_medio` |
| App.HeadKeys | app.py:20-27 | the first six keys are upa, url, updated_at and the three counts |
| App.ColorKeyAt | app.py:30-33 | the remaining ten keys are the colour columns in `COLORS` order |
| App.FlatKeys | app.py:19-35 | a flattened row has exactly the sixteen flat columns, in order, and the error row those and `erro` |
| App.VisitOne | app.py:38-46 | one unit's visit changes no cache entry but its own; `VisitRowShape` and `VisitFailed` prove what its row is |
| App.FetchOne | app.py:38-46 | a fresh cache hit is flattened without fetching or writing; on a miss the page is fetched and parsed, the parse is stored under the url and that parse is flattened; a failing fetch leaves the cache unchanged |
| App.Sweep | app.py:57-82 | the loop over the units gives one row per unit; `SweepStep` and `SweepRowAt` prove that row `i` is unit `i`'s visit against the cache the earlier units left |
| App.Collect | app.py:57-82 | the collection with `_fetch_one` as the visit gives one row per unit; `CollectStep`, `CollectIsUnits` and `CollectKeepsOthers` prove its rows and its cache |
| App.SweepStep | app.py:57-82 | one more unit appends its row and passes on its cache |
| App.SweepRowAt | app.py:57-82 | the `i`-th row is the visit of the `i`-th unit against the cache the units before it left |
| App.CollectLast | app.py:57-82 | the last unit's visit extends the collection of the units before it |
| App.CollectStep | app.py:57-82 | one more unit extends the collection by its row |
| App.Without | app.py:88 | the remaining columns are exactly the non-main columns of the frame |
| App.Reorder | app.py:55-58 | the units in the order their fetches complete |
| App.LoadAllUpas | app.py:49-91 | the loop appends each unit's row or error row in completion order, tabulates them, and leaves the cache as the units' visits did |
| App.StrLtAsymmetric | app.py:90 | string order is asymmetric |
| App.StrLtLeTrans | app.py:90 | string order is transitive across a non-strict step |
| App.StrLtTotal | app.py:90 | two strings neither before the other are equal |
| App.NamedAppend | app.py:90 | the items of one name in a concatenation are those of each part |
| App.NamedSingle | app.py:90 | a single item is listed under its own name only |
| App.InsertPerm | app.py:90 | insertion adds exactly the inserted item |
| App.InsertShape | app.py:90 | insertion adds one item and puts the new one first only before a greater name |
| App.InsertKeeps | app.py:90 | insertion into a sorted sequence stays sorted and adds exactly the item |
| App.NoneNamedBelow | app.py:90 | in a sorted sequence that starts above a name nothing has that name |
| App.InsertNamedFront | app.py:90 | inserting in front keeps the order of items of each name |
| App.InsertNamed | app.py:90 | insertion puts the new item after every earlier item of its name |
| App.SortBy | app.py:90 | the stable sort keeps the number of items; `SortByPermutes` and `SortByStable` prove it sorted, a permutation and stable |
| App.SortByUpa | app.py:90 | `sort_values("upa", kind="stable")` gives the rows sorted by name, as a permutation of the input; `SortByStable` proves that rows of one name keep their order |
| App.SortByPermutes | app.py:90 | the sort by name is sorted and a permutation of its input |
| App.SortBySorted | app.py:90 | the sort by name is sorted |
| App.SortByPerm | app.py:90 | the sort by name is a permutation of its input |
| App.SortByStable | app.py:90 | the sort is stable: the rows of each name keep their order |
| App.HeadLeast | app.py:90 | the first item of a sorted sequence has the least name |
| App.NamedHas | app.py:90 | every item is listed under its own name |
| App.NamedTwice | app.py:90 | two items of one name are both listed under it |
| App.HeadKeyUnique | app.py:90 | with unique names no later item shares the first one's name |
| App.UniqueTail | app.py:90 | dropping the first item keeps names unique |
| App.SortedUnique | app.py:90 | two sorted sequences with unique names and the same items are equal |
| App.VisitKeepsOthers | app.py:38-46 | visiting a unit touches the cache only under its own url |
| App.CollectKeepsOthers | app.py:54-82 | the cache entry of a url no visited unit has is never touched |
| App.VisitLocal | app.py:38-46 | a unit's row depends only on its own cache entry |
| App.RowPerUnit | app.py:54-82 | with distinct urls each unit's row is the one it gets alone, whatever the other units did |
| App.ColumnFacts | app.py:87-88 | the flat columns are distinct, do not include `erro`, and include every main column |
| App.AddKeysPresent | app.py:84 | keys already present add no column |
| App.AddKeysFresh | app.py:84 | distinct new keys are added at the end, in order |
| App.AddKeysAppend | app.py:84 | adding two runs of keys is adding one after the other |
| App.HasErrorSnoc | app.py:84 | one more row has the error column exactly when it or an earlier one does |
| App.Tabulate | app.py:84-90 | no rows give an error, and a table starts with the five main columns; `TableSpec` proves the rest |
| App.KeyUnion | app.py:84 | every key of every row is a column of the frame; `UnionOfRows` proves the columns are the shared ones, then `erro` exactly when some row has it |
| App.UnionOfRows | app.py:84 | the frame's columns are the shared columns, followed by `erro` exactly when some row has it |
| App.WithoutAppend | app.py:88 | selecting the non-main columns distributes over concatenation |
| App.TableColumns | app.py:84-89 | the table's columns are the main ones, the other shared columns in their order, then `erro` when some row has it |
| App.FlatUpa | app.py:21 | a flattened row is named after its unit |
| App.VisitRowShape | app.py:38-82 | a unit's row is named after it and is a flattened row or an error row |
| App.CollectShapes | app.py:54-82 | every collected row has the flat columns, with `erro` or without, and is named after its unit |
| App.NamedNone | app.py:90 | a name no item has lists nothing |
| App.ApartUnique | app.py:90 | pairwise distinct names are unique names |
| App.UnitRows | app.py:38-82 | the row each unit gets when visited alone against the initial cache |
| App.ReorderDistinct | app.py:55-58 | reordering distinct units keeps them distinct |
| App.CollectIsUnits | app.py:54-82 | in completion order, the `j`-th row is the row of the `j`-th unit to complete, taken alone |
| App.CollectUnique | app.py:54-82 | distinct units give rows with distinct names |
| App.ReorderedItems | app.py:55-58 | a listing of the units in completion order holds the same items |
| App.ReorderedRows | app.py:54-82 | whatever the order of completion, the rows are the units' own rows, with the flat columns and unique names |
| App.SortSameItems | app.py:90 | sequences with the same items and unique names sort to the same sequence |
| App.TabulateSameItems | app.py:84-90 | rows with the same items, unique names and the flat columns give the same table |
| App.OrderIrrelevant | app.py:49-91 | with distinct names and urls the table does not depend on the order in which the fetches complete |
| App.TableRows | app.py:49-91 | for a non-empty registry the table holds exactly one row per unit, the row that unit gets alone, sorted by name |
| App.VisitFailed | app.py:59-82 | a unit whose cache misses and whose fetch raises gets the error row |
| App.FailedUnitRow | app.py:57-82 | that error row, with the exception's text, is in the table |
| App.TableSpec | app.py:84-91 | the table's columns start with the five main ones and every later column is not main; its rows are a stable sort by name and a permutation of the collected rows; no rows give an error |

## Left out

- `ThreadPoolExecutor` and `as_completed` in `load_all_upas`: the units are visited one at a time, in a given completion order. `set_cached` has no lock, so two concurrent writers can lose an update; that race is not modelled.
- `st.cache_data`, the page setup and the rest of the Streamlit interface of `app.py`: presentation only.
- The `upas` registry is not part of this model. It is an input list of `(name, url)` pairs, assumed to have distinct names and urls where a lemma needs that.
- HTML parsing with BeautifulSoup and lxml: a document is given as its elements and its whole text. The parse step itself never fails in the model.
- All calls into `requests` and the Selenium driver are inputs: the outcome of each attempt, and a `DriverTrace` of what the driver gives. Also left out:
  - the session headers;
  - the TLS verification option that is passed along;
  - cookie clicking and scrolling;
  - timeouts and the `_wait_for_metrics_loaded` polling loop, taken as having no effect on the decision;
  - `response.encoding`.
- The backoff delay and its random jitter: the model counts the pauses but not their length.
- File writing in `_save_debug_artifacts` and `save_cache`, and the directory creation: only the `safe_tag` expression and the map written are modelled.
- Time is a whole number of seconds passed in as `now`, not the float of `time.time()`.
- The sweep happens at one instant: `load_all_upas` passes the same `now` to every unit's lookup and store, where `get_cached` and `set_cached` each read the clock afresh. Entries are stamped with the lookup time.
- A cache file whose JSON is not a dictionary (which makes `get_cached` raise) is not modelled: a file is missing, unreadable, or a map. Its entries hold what `set_cached` writes: a parse result, or no data. An entry read from disk whose `data` is an empty dictionary is not modelled; `_fetch_one` treats that falsy value as a miss and fetches again (app.py:40).
- Failures of the cache write, and exceptions other than the fetch's inside `_fetch_one`, are not modelled: a unit's failure is the fetch's failure.
- Characters: whitespace is Python's full `str.isspace` set. Digits are ASCII, where Python's `\d` accepts every Unicode digit. Case mapping and the NFKD step of `_norm` are mapped exactly for U+0000 to U+00FF and for the combining marks U+0300 to U+036F (all dropped except U+034F, whose combining class is 0). Every other character, including the accented letters of Latin Extended from U+0100 on, which Python would decompose, is kept as it is. Letters for `\w`, `\b` and `str.isalnum` are ASCII and Latin-1 only; a letter of another script counts as a non-word character, so `\b` can match next to it and `safe_tag` drops it.
- Table cells are modelled by value: a missing value or NaN is `Null` and a count is an integer. The dtype inference of `pd.DataFrame(rows)` at app.py:84 is not modelled; pandas stores a count column that holds any missing value as float64, so the table shows 5.0 where the model has 5.
- The `KeyError` of selecting the main columns from an empty data frame is modelled as `Err("KeyError")`, without its message.
- Error rows: `app.py` lists their keys literally; the model builds them from the flat columns, and `App.ErrorKeys` proves the two lists are equal.
- The text of exceptions is modelled by what its message reports (the fetcher, the last status, the last exception), not by the formatted string.
- Parser.AriaNodes: its own contract states only the size bound and the non-blank labels; the filter itself is stated by `ParserProperties.AriaNodesAppend`.
- Parser.Parse: its own contract states only the colour keys; well-formedness and the card and table rules are the lemmas of `ParserProperties`.
