# Stock screening report: a Dafny model of its rules

The system scans a stock screener page for actively moving equities, draws a
daily chart (one year of candles with 20/50/200-bar simple moving averages)
and a one-minute chart (with BUY/SELL labels on volume spikes) per stock, and
writes an HTML report: a summary table whose rows link to one card per stock.

This project models the deterministic rules of `app_cron.py`, lifted out of
the pandas, yfinance, plotly and requests calls, with exact arithmetic
(prices `real`, volumes `nat`):

- `Rolling` (rolling.dfy): pandas' `rolling(w).mean()` — one entry per value,
  undefined (`None`) for the first `w - 1` entries, then the mean of the `w`
  values ending at that entry.
- `Screener` (screener.dfy): `fetch_and_filter_stocks` — Python's
  `str.strip`, the per-row extraction and validation, the row loop, the
  truncation to 2 rows (test mode) or 10, and the single mock AAPL row on a
  failed request or a non-200 status.
- `Charts` (charts.dfy): `generate_stock_images` — the SMA columns and the
  one-year tail of the two-year frame, the 5-bar volume average and the spike
  flag, the annotation loop, and the pair of images (or `(None, None)`).
- `Report` (report.dfy): `create_html_report` — the summary rows and their
  `#Ticker` links, and the cards, emitted only for a truthy daily image.
- `Wrappers` (wrappers.dfy): `Option` and a generic in-order filter on
  present values (`Present`), used for kept rows, annotations and cards.

Inputs that come from outside are parameters: the HTTP outcome (`Response`
or `RequestFailed`), Python's `float()` (`parse: string -> Option<real>`),
the two downloads (`None` when the download raised), and the figure export
with base64 encoding (`drawDaily`, `drawIntraday`, `None` when it raised).
`TEST_MODE` is the parameter `testMode`.

The code differs from the general design of the system in places, and the
model follows the code: moving averages are undefined during the warm-up
rather than computed on a shrinking window; spikes are annotated in time
order, with no ranking and no cap; the screener applies no bound on the
percent change and does not reject an empty ticker.

## Model

| member | source | states |
|---|---|---|
| `Rolling.Sma` | app_cron.py:64-66 | one moving-average entry per close |
| `Rolling.SmaAt` | app_cron.py:64-66 | entry i is undefined exactly when i < w-1 (no shrinking window); otherwise w times it is the sum of closes i-w+1..i |
| `Rolling.SmaCausal` | app_cron.py:64-66 | the average is trailing: the averages of a prefix of the closes are the prefix of the averages |
| `Rolling.SmaSliding` | app_cron.py:64-66 | consecutive defined averages differ by (entering close - leaving close) / w |
| `Rolling.SmaBetween` | app_cron.py:64-66 | a defined average lies between any bounds holding for its window |
| `Rolling.SmaConstant` | app_cron.py:64-66 | over a flat window of w closes the average is that close |
| `Charts.OneYearViewSpec` | app_cron.py:62-67 | the one-year view is the last min(n, 252) bars in order, each carrying the SMA20/50/200 computed over the whole two-year series |
| `Charts.OneYearViewFullyDefined` | app_cron.py:62-67 | with at least 451 bars every row of the one-year view has all three averages, though a recomputation on the view alone has none at its first row |
| `Charts.SpikeExact` | app_cron.py:87-88 | bar i is a spike iff i >= 4 and 5·v[i] > 3·(v[i-4] + … + v[i]); bars 0..3 never are |
| `Charts.SpikeAgainstPrior` | app_cron.py:87-88 | equivalently, i >= 4 and 2·v[i] > 3·(v[i-4] + … + v[i-1]) |
| `Charts.SpikeExceedsEachPrior` | app_cron.py:87-88 | a spike has more than 1.5 times the volume of each of the four bars before it |
| `Charts.ZeroVolumeNoSpike` | app_cron.py:88 | a zero-volume bar is never a spike |
| `Charts.FlatVolumeNoSpike` | app_cron.py:88 | a bar ending five equal volumes is not a spike |
| `Charts.SpikeAnnotationsExact` | app_cron.py:95-98 | one annotation per spike and no other, in strictly increasing time order, with no cap |
| `Charts.SpikeAnnotationsLabels` | app_cron.py:95-98 | an annotation sits at its bar's high and reads BUY in lime iff close > open, SELL in red otherwise, close == open included |
| `Charts.Annotate` | app_cron.py:95-98 | the annotation loop produces exactly the spike annotations |
| `Charts.GenerateStockImages` | app_cron.py:58-107 | both images or neither; neither exactly when a download or an export raised; the one-minute image is "" when there are no one-minute bars; the figures are drawn from the one-year view and from the bars with their average, flags and annotations |
| `Screener.StripPadded` | app_cron.py:40-44 | `strip` removes exactly the padding: text whose ends are outside the set, padded on both sides with characters of the set, strips to that text |
| `Screener.StripIdempotent` | app_cron.py:40-44 | a stripped text has neither end in the set, and stripping it again changes nothing |
| `Screener.ParseRow` | app_cron.py:37-46 | a row yields a record iff it has at least 11 cells and both its whitespace-stripped price cell and its '%'-stripped change cell parse |
| `Screener.ParseRowFields` | app_cron.py:39-45 | a record takes cells 1, 2, 3, 4, 6, 7 and 10, trimmed, as text fields, and the parsed cells 8 and 9 as price and change |
| `Screener.ParseRowIgnoresUnusedCells` | app_cron.py:39-45 | cell 0, cell 5 and cells past the eleventh do not affect the record |
| `Screener.KeptRowsSpec` | app_cron.py:34-46 | the kept records are, in page order and once each, the records of exactly the rows that parse |
| `Screener.ExtractRows` | app_cron.py:34-46 | the row loop returns exactly the kept records |
| `Screener.ScreenSpec` | app_cron.py:28-53 | on a failed request or a non-200 status the result is the mock AAPL row alone; otherwise it is the longest prefix of the kept records of length at most 2 (test mode) or 10 |
| `Screener.ScreenEmpty` | app_cron.py:48-49 | the result is empty (so no report is written) iff the page loaded with status 200 and no row was kept |
| `Screener.FetchAndFilterStocks` | app_cron.py:23-53 | the step returns the screened table described by ScreenSpec |
| `Report.CardsSpec` | app_cron.py:137-151 | the cards are, in table order, exactly those of the rows whose daily image is truthy; each has its row's ticker as id and that row's images |
| `Report.CardForTicker` | app_cron.py:138-142 | a card with id t exists iff some row with ticker t has a truthy daily image |
| `Report.CardsHaveRows` | app_cron.py:134-142 | every card's id is the anchor of some summary row's link |
| `Report.LinkReachesCard` | app_cron.py:134-142 | the link of summary row i reaches a card iff a row with the same ticker has a truthy daily image |
| `Report.CreateHtmlReport` | app_cron.py:134-151 | one summary row per stock, in order, linking to `#Ticker`; the cards are those of CardsSpec |

## Left out

- HTTP fetching, the user agent, the timeout and BeautifulSoup parsing: network I/O and a foreign library; the page is given as its rows of cell texts, or as a raised request.
- Python's `float()` on cell text: an abstract partial function `parse`; decimal-string conversion is not modelled (it also tolerates surrounding whitespace, which is why the change cell reaches it with only '%' stripped).
- yfinance downloads and the flattening of MultiIndex columns: a foreign library; downloads are given as bar sequences, `None` when the download raised. Missing values (NaN) inside downloaded prices or volumes are not modelled.
- Plotly figure construction, axis ranges (the volume ceiling of four times the maximum), colours of traces, PNG export and base64 encoding: rendering; the export is an abstract function that returns the image text or `None` when it raised. Whether an export can return an empty text is left to that function; the report treats an empty daily image as absent, as the source does.
- GenerateStockImages: the source calls the exports after building each figure; since every exception yields `(None, None)`, the model does not track the order of the calls.
- The HTML and CSS text of the page, the cells' display formatting (`$` price, `+…%` change) and the write of `report.html`: only the rows, the cards and the anchor matching are modelled.
- Report.CreateHtmlReport: takes the results of `generate_stock_images` for each row as an input aligned with the table, instead of calling the step inside its loop.
- The entry point (`__main__`): it screens and renders only when the table is not empty; ScreenEmpty states when that happens.
- Floating-point behaviour of pandas means and comparisons: exact `real` arithmetic instead.
- The unused language-model key, model name and client import, and the start-up print: no behaviour.
- `test_finviz.py`: a network probe that prints cell contents.
