# sr-scraper: the snapshot pipeline, in Dafny

sr-scraper is a scheduled Node.js job. Each run visits the barchart.com
"opinion" page of two coins, BTC then ETH, and reads the "Support &
Resistance" widget. For each coin it turns the widget's table rows into an
object of label/value pairs and renames the English labels to Chinese display
labels. It then compares the object's `JSON.stringify(…, null, 2)` text with
the coin's latest snapshot file `data/<coin>_sr.json`. When the text differs,
or no snapshot exists yet, the job does four things in order:

1. it writes an archive copy `data/<coin>_sr_<stamp>.json`;
2. it overwrites the latest file;
3. it takes a screenshot of the widget;
4. it sends a Telegram message that lists every entry.

A failure inside a coin's `try` block ends that coin's cycle. The run then
goes on with the next coin.

This project models that per-coin pipeline and the loop around it. The
modules are:

- `Tables` (`tables.dfy`): ordered tables with JavaScript object assignment.
  A new key is appended. Assigning an existing key overwrites its value and
  keeps its position. `Build` assigns a list of entries into a fresh `{}`.
- `Extraction` (`extraction.dfy`): `String.prototype.trim`, the pair a row
  contributes (`RowPair`), and the row loop as the method `ExtractTable`.
- `Labels` (`labels.dfy`): the label lookup table and the relabelling loop as
  the method `Normalize`.
- `Json` (`json.dfy`): the snapshot text of a string-valued object. It has a
  reader for that layout, so that serialization is proved injective.
- `Message` (`message.dfy`): the Telegram text, and splitting text into lines
  so that its layout can be stated.
- `Timestamp` (`timestamp.dfy`): the file-name form of the clock text.
- `Scraper` (`scraper.dfy`):
  - the `data` directory as the class `DataDir`, holding a map from path to
    content;
  - the per-coin cycle as the function `CoinStep` and the methods
    `ProcessCoin` and `PublishTable`. `CoinStep` works on an `Attempt`: the
    table built from the page (nothing when the page failed), and whether the
    screenshot and the Telegram request succeed. `AttemptOf` builds it from
    the page's rows;
  - the run over `["BTC", "ETH"]` as the function `RunCoins` and the method
    `RunTask`;
  - the lemmas about change detection, writes, isolation between coins and
    re-runs.

The outside world is given to the model as inputs:

- For each coin, the page either failed or produced the `innerText` of the
  table cells, row by row.
- For each coin, two booleans say whether the screenshot and the Telegram
  request succeed.
- The clock text for the file stamp and the display timestamp are given
  strings.

## Model

| member | source | states |
|---|---|---|
| `Tables.Assign` | index.js:70 | `o[k] = v`: the key list grows by `k` only when `k` is new, so an existing key keeps its position; every entry afterwards is an old entry or `(k, v)` |
| `Tables.AssignFresh` | index.js:70 | assigning a key that is not present appends `(k, v)` at the end |
| `Tables.AssignLookup` | index.js:70 | after `o[k] = v`, reading `k` gives `v` and every other key reads as before |
| `Tables.Build` | index.js:68-71 | the object built by successive assignments has no repeated key and holds only assigned entries |
| `Tables.BuildKeys` | index.js:68-71 | the keys of the built object are the assigned keys, each once, in order of first assignment |
| `Tables.BuildLookup` | index.js:68-71 | each key of the built object reads as the value last assigned to it |
| `Tables.BuildDistinct` | index.js:74 | when no key is assigned twice, the built object is exactly the list of assignments |
| `Tables.Dedup` | index.js:68-71 | the first-occurrence order used to state key order: no repeats, no longer than its input, the same elements |
| `Extraction.Trim` | index.js:69 | `trim()` removes exactly the leading and trailing ECMAScript whitespace: the result is a slice of the cell with only whitespace before and after it, empty exactly when the cell is all whitespace, and otherwise neither starting nor ending with whitespace |
| `Extraction.RowPair` | index.js:69-70 | a row gives a pair exactly when it has at least two cells and neither of the first two is empty once trimmed; the pair is those two trimmed cells |
| `Extraction.ExtractTable` | index.js:67-71 | the row loop yields the object built by assigning each row's pair, in row order, into `{}`; its keys are distinct |
| `Extraction.ExtractedSnoc` | index.js:68-71 | one more row assigns its pair into the object built so far, or leaves it as it is when the row gives no pair |
| `Extraction.ExtractedNonEmpty` | index.js:69-70 | every key and every value of the extracted object is non-empty |
| `Extraction.RowPairAssigned` | index.js:69-70 | every row that gives a pair is assigned |
| `Extraction.AssignedFromRow` | index.js:69-70 | every assigned pair is the pair of some row, whose index the lemma returns |
| `Extraction.ExtractedHasKey` | index.js:67-71 | a key is in the object if and only if some row gives a pair with that key |
| `Extraction.ExtractedKeyOrder` | index.js:67-71 | keys appear in the order of the first row carrying them; the object has no more keys than there are rows |
| `Extraction.ExtractedLastRowWins` | index.js:67-71 | a later row with the same key overwrites the value: a key reads as the value of the last row carrying it |
| `Labels.Normalize` | index.js:74 | the relabelling loop yields the object built from `(labelMap[k] \|\| k, v)` for each entry in order, with distinct keys |
| `Labels.LabelRenamesExactlyMapped` | index.js:10-18 | a key is renamed if and only if it is a page label of the lookup table, and then to its display label |
| `Labels.LabelCollision` | index.js:10-18 | two different keys share a label only when one of them already is a display label that is not a page label |
| `Labels.NormalizedKeyOrder` | index.js:74 | result keys are the labels in order of first occurrence; the result is never longer than the input |
| `Labels.NormalizedLookup` | index.js:74 | a label reads as the value of the last input entry that carries it |
| `Labels.NormalizedValuesVerbatim` | index.js:74 | every result entry is an input value, unchanged, under the label of its input key |
| `Labels.NormalizedWithoutCollision` | index.js:74 | when no two keys share a label, the result is the relabelled input, entry for entry, and has the same size |
| `Labels.NormalizedKeepsSize` | index.js:74 | a table with distinct keys, none already a display label, keeps every entry and its size |
| `Json.EscapeChar` | index.js:77 | every character escape is non-empty and never starts with a quote; that no escape ends a string early comes from `Json.ReadEscapedChar`, which reads each escape back as exactly its character |
| `Json.ReadQuoted` | index.js:77 | an escaped string followed by its closing quote reads back as the original string |
| `Json.RoundTrip` | index.js:77 | reading the snapshot text gives back the table it was written from |
| `Json.SerializeInjective` | index.js:77-78 | two tables have the same snapshot text only when they are equal, with the same keys, values and order |
| `Message.LinesOfJoin` | index.js:91 | splitting the `join('\n')` of lines without line breaks gives the lines back |
| `Message.MessageLines` | index.js:90-91 | the message reads line by line as the header naming the coin, `🕒 <tsText>`, an empty line, then one `• *k*：v` per entry in table order, when no part (coin, display timestamp, key or value) holds a line break |
| `Timestamp.FileStampAt` | index.js:40-41 | the file stamp has the clock text's length; it is `_` at the first space and `-` at every colon, and the clock text elsewhere; no colon is left |
| `Scraper.RunCoins` | index.js:46-96 | a run gives exactly one outcome per coin |
| `Scraper.DataDir.Write` | index.js:84-85 | a write creates or overwrites exactly the one path |
| `Scraper.ProcessCoin` | index.js:55-94 | one coin's cycle, with its `try`/`catch`, leaves the directory and the outcome that `CoinStep` gives for the table built from the page |
| `Scraper.PublishTable` | index.js:76-92 | the part after the table is built compares, writes, takes the screenshot and sends, leaving the directory and the outcome that `CoinStep` gives for that table |
| `Scraper.RunTask` | index.js:40-96 | a run takes the file stamp from the clock text once and processes BTC then ETH; it leaves the directory and the outcomes that `RunCoins` gives |
| `Scraper.UnchangedIff` | index.js:76-80 | a cycle is "unchanged" if and only if the page was scraped and the latest file exists and holds the table's snapshot text; a missing latest file always means a change |
| `Scraper.UnchangedIffSameTable` | index.js:76-80 | when the latest file holds the snapshot of table `t`, a cycle is "unchanged" if and only if the new table equals `t` |
| `Scraper.ArchiveIsNotLatest` | index.js:76-84 | the archive and the latest file of a coin are different paths |
| `Scraper.WriteBoth` | index.js:84-85 | writing the archive and then the latest file adds exactly those two paths, both holding the text, and leaves every other file as it was |
| `Scraper.StepWrites` | index.js:78-85 | an unchanged or failed scrape writes nothing; otherwise exactly the archive and the latest file are written, both holding the new text, and every other file is as before |
| `Scraper.LatestHoldsLastSnapshot` | index.js:78-85 | after any scraped cycle, the latest file holds the snapshot of that table |
| `Scraper.NotifiedAfterPersist` | index.js:76-92 | a message goes out exactly when the page was scraped, its snapshot differs from the latest file, the screenshot is taken and the request succeeds; by then the latest file holds the new snapshot, and the message is the composed text for the new table |
| `Scraper.FirstRunNotified` | index.js:78-92 | a coin with no latest file yet always counts as changed: a scraped page with a working screenshot and request writes the snapshot and sends the composed message |
| `Scraper.RerunUnchanged` | index.js:78-85 | scraping the same table again is "unchanged", with no write and no message, however the first cycle ended after its writes |
| `Scraper.PathsDisjoint` | index.js:76-84 | unrelated coins never share a latest or archive path |
| `Scraper.OtherCoinUntouched` | index.js:76-85 | a coin's cycle leaves the latest and archive files of every unrelated coin as they were |
| `Scraper.StepReadsOnlyLatest` | index.js:76-78 | a cycle's outcome depends on the directory only through the coin's latest file |
| `Scraper.RunLeavesOtherLatest` | index.js:46-96 | a run leaves the latest file of a coin unrelated to all its coins as it was |
| `Scraper.LastCoinIsolated` | index.js:46-96 | the last coin of a run ends as its cycle would on the directory at the start of the run |
| `Scraper.RunIsolation` | index.js:46-96 | with pairwise unrelated coins, each coin ends as its cycle would on the directory at the start of the run, whatever happened to the others |
| `Scraper.CoinsUnrelated` | index.js:9 | neither of the coin names `BTC` and `ETH` starts the other |
| `Scraper.CoinsIsolated` | index.js:9 | BTC and ETH are processed independently: an error or a change for one does not affect the other's outcome |
| `Scraper.RunLeavesLatestSnapshots` | index.js:46-96 | for pairwise unrelated coins, as `BTC`/`ETH` are, after a run the latest file of every coin whose page was scraped holds the snapshot of its table |
| `Scraper.RunOfUnchanged` | index.js:46-96 | a run whose tables all match their latest files writes nothing and ends every coin as unchanged |
| `Scraper.RerunRunUnchanged` | index.js:46-96 | for pairwise unrelated coins, as `BTC`/`ETH` are, a second run on the same tables, after a run that scraped every page, writes nothing and sends nothing |

## Left out

- Browser automation is not modelled: the Puppeteer launch, navigation, user agent, `autoScroll`, the widget lookup and `scrollIntoView`. A coin's page is an input that either failed or gave the cells' text.
- The `if (!target)` check is not modelled. `evaluateHandle` returns a handle even when the page script returns `null`, so the check does not reliably fire. A missing widget shows up as whatever the page input says.
- The screenshot's PNG bytes and its file under `screenshots/` are not in the file map. The screenshot is an action that succeeds or fails.
- The Telegram request, its URL, its Markdown parse mode and the `.env` secrets are not modelled. Delivery is an action that succeeds or fails.
- The cron schedule, the time zone and `toLocaleString` formatting are not modelled. The clock text for the file stamp and the display timestamp are inputs.
- Creating the `screenshots` and `data` directories, console logging and `page.close` are not modelled.
- A failing `writeFileSync` is not modelled: writes always succeed.
- `innerText` whitespace rules are not modelled. Cells are given as their `innerText`; `trim` is modelled exactly.
- JavaScript's ordering of integer-like property keys before the others is not modelled. No label of the lookup table is integer-like.
- The special behaviour of prototype property names as keys is not modelled. For example, assigning `__proto__` is ignored, and `labelMap['constructor']` is a function rather than `undefined`.
- Lone surrogates are not modelled, because Dafny characters are Unicode scalar values. `JSON.stringify` escapes lone surrogates as `\uXXXX`.
- Scraper.PublishTable: the archive is written before the latest file, as in the source. Writes cannot fail in this model, so the order of the two writes is not visible in the contract.
- Labels.NormalizedKeepsSize: normalization keeps the number of entries only when no two keys share a label. The code assigns into a fresh object, so two keys with the same label collapse into one entry (see `Labels.LabelCollision`).
- Scraper.RunTask: failures outside the per-coin `try` block are not modelled. `puppeteer.launch` (index.js:31), the `mkdirSync` calls (index.js:37-38), `browser.newPage` (index.js:47), `page.setUserAgent` (index.js:48), the `page.close` after the `catch` (index.js:95) and `browser.close` (index.js:98) abort the rest of the run when they fail. The model always processes both coins, and `Scraper.CoinsIsolated` holds only for failures inside the `try` block.
- Scraper.CoinsIsolated: every outside call is assumed to return. `page.goto` runs with `timeout:0` (index.js:56), `autoScroll` waits until the page stops growing (index.js:103-113) and the Telegram request has no timeout (index.js:24), so a stalled page or request blocks every later coin. Isolation covers failures, not stalls.
- Scraper.ProcessCoin: a failing `existsSync` or `readFileSync` of the latest file (index.js:78) is not modelled: reads always succeed.
- Scraper.PathsDisjoint: paths are plain concatenations of `data/`, the coin, the stamp and `.json`. `path.join` also normalizes `..` and repeated `/`, so this lemma and `Scraper.OtherCoinUntouched` hold of the source only for stamps without `/` or `..`. The `sv-SE` date form with `:` replaced by `-` never contains either.
