# SMS log statistics — a Dafny model

This project models the core of `extractsms.py`, a small program that reads an
exported SMS conversation log and reports statistics about the messages:

- **Loading** (`build_tuples`): each child element of the log's root carries the
  attributes `address`, `type`, `body`, `time` and `date`. It becomes an
  `SMSMsg` record. The type code `"1"` means RECEIVED and `"2"` means SENT; any
  other code means UNKNOWN. The stored length is the number of characters of
  the body, and the `date` in milliseconds becomes whole seconds.
- **Aggregation** (`avg_collection`): one pass over a non-empty message
  sequence. It yields a `Metrics` record: the message count, the average length,
  the longest and the shortest message, and the `Counter` histogram of lengths.
  Ties keep the earliest message, because a later message replaces the current
  longest or shortest only when it is strictly longer or shorter.
- **Histogram projection** (`histogram_d3_data`): the histogram flattened to a
  list. Each length up to `max_length` (100 by default) appears as many times
  as it occurs.
- **The program's data flow** (`main` without its output): load the log, then
  summarise the received messages, the sent messages and all messages, then
  project the three histograms.

Files:

- `wrappers.dfy`: `Option` and `Result`.
- `decimal.dfy`: Python's `int` applied to a decimal string (the `date`
  attribute), with the decimal writer as its inverse.
- `extractsms.dfy`: module `ExtractSms`, holding the records, the loader, the
  aggregator, the projection and the data flow of the entry point.

Modelling decisions:

- The `Counter` of lengths is a `multiset<nat>`. A `Counter` built from a list
  maps each element to its multiplicity, and that is exactly a multiset.
- The average is a `real` equal to the running total divided by the count.
- Exceptions become `Result` failures. A missing attribute is `KeyError`
  (`MissingAttribute`). A date that is not an integer is `ValueError`
  (`InvalidInteger`). Aggregating an empty sequence is `StopIteration`
  (`EmptyInput`).
- The loop over `Counter.items()` picks the next length with `:|`. That leaves
  the visiting order open, as the dictionary's order is. The contract fixes the
  output up to that order: it gives the multiset of the output, and it says
  that each length appears in one contiguous run.
- Behaviours of the code that a reader might not expect, all modelled as
  written:
  - A record without a `type` attribute raises `KeyError` (line 25 indexes
    `attrs['type']` before the lookup). It does not become UNKNOWN.
  - The record field named `date` receives the `time` attribute (line 27).
  - The date in seconds is Python 2 `int / int`, i.e. floor division. Dafny's
    `/` with a positive divisor is the same floor division, also for negative
    dates; it is not truncation.
  - There is no tokenizer and no word-frequency table: `Metrics` has no such
    field (line 7).
- The running total is seeded with the length of the first message's text
  (line 37), not with its stored length. `Summarises` keeps that form
  (`SeededTotal`). `AverageIsMean` shows the average is the mean stored length
  whenever the first record is well formed, and every loaded record is.

## Model

| member | source | states |
|---|---|---|
| `ExtractSms.MsgType.Code` | src/extractsms.py:10-12 | RECEIVED, SENT and UNKNOWN are exactly the integer codes 1, 2 and 3 |
| `ExtractSms.MsgTypeOf` | src/extractsms.py:18-20 | the type is RECEIVED exactly for code "1", SENT exactly for code "2", and UNKNOWN exactly for every other code |
| `ExtractSms.BuildTuple` | src/extractsms.py:23-29 | a child loads exactly when its five attributes are present and its date parses as an integer. The record holds the address, the mapped type, the body, the time text, and the date in whole seconds (floor of milliseconds / 1000). Its stored length is the body's length. A missing attribute is reported exactly when every attribute read before it is present. With all attributes present, the only failure is the unparsable date |
| `ExtractSms.BuildTupleRoundTrip` | src/extractsms.py:23-29 | loading the attributes a well-formed record is written with gives back that same record |
| `ExtractSms.BuildTuples` | src/extractsms.py:17-30 | loading succeeds exactly when every child loads. It then yields one record per child, in order, each well formed, with the body's length and the mapped type. Otherwise the error is that of the first child that fails |
| `Decimal.ParseInt` | src/extractsms.py:28 | `int(attrs['date'])` succeeds exactly when the text, stripped of surrounding whitespace, is an optional sign followed by at least one digit; a negative result comes only from a leading minus |
| `Decimal.ParseIntIgnoresSurroundingSpace` | src/extractsms.py:28 | whitespace before and after the date text does not change the parsed value or the error |
| `Decimal.ParseFormatRoundTrip` | src/extractsms.py:28 | `int` applied to the decimal spelling of any integer gives that integer back |
| `Decimal.ParseIntNeedsDigit` | src/extractsms.py:28 | a date text without any digit is rejected |
| `ExtractSms.AvgCollection` | src/extractsms.py:33-50 | empty input fails with `EmptyInput` and nothing else fails. On success, the count is the number of messages and the average is the seeded total over the count. The longest (shortest) is the earliest message whose length is at least (at most) every length. The histogram is the multiset of the stored lengths |
| `ExtractSms.HistogramCounts` | src/extractsms.py:39-50 | the histogram's count for a length is the number of messages of that length |
| `ExtractSms.HistogramTotal` | src/extractsms.py:39-50 | the histogram's counts add up to the number of messages |
| `ExtractSms.AverageIsMean` | src/extractsms.py:37-50 | when the first record is well formed, the average is the sum of the stored lengths divided by the count |
| `ExtractSms.ExtremesBoundHistogram` | src/extractsms.py:43-50 | the longest and shortest lengths occur in the histogram, and every histogram length lies between them |
| `ExtractSms.SummaryIsUnique` | src/extractsms.py:33-50 | two summaries of the same sequence are equal: ties on length are resolved by the earliest message |
| `ExtractSms.ThreeMessageSummary` | src/extractsms.py:33-50 | "hi there" received, "ok" sent, a different "hi there" received: 3 messages, average 6, the first "hi there" is the longest and the later one of equal length is not, "ok" the shortest, length 8 twice and length 2 once |
| `ExtractSms.AtMost` | src/extractsms.py:67-71 | the part of a histogram kept by the projection holds each length up to the bound with its full count, and nothing above the bound |
| `ExtractSms.HistogramD3Data` | src/extractsms.py:64-72 | as a multiset, the output holds exactly `histogram[L]` copies of each length `L <= max_length`. Its length is therefore the sum of those counts. No element exceeds `max_length`. The copies of one length form one contiguous run |
| `ExtractSms.AtMostWhole` | src/extractsms.py:67-71 | when no length exceeds the bound, the projection keeps the whole histogram |
| `ExtractSms.ProjectionCoversAllMessages` | src/extractsms.py:67-71 | when the bound reaches the longest message, the projection has one entry per message |
| `ExtractSms.ProjectionBelowShortest` | src/extractsms.py:68 | a bound below the shortest message leaves the projection empty |
| `ExtractSms.OfType` | src/extractsms.py:82-83 | the filtered messages are exactly the messages of the given type, and there are no more of them than messages |
| `ExtractSms.OfTypeCounts` | src/extractsms.py:82-83 | the selection holds each message of the given type exactly as many times as the log does, and no message of another type |
| `ExtractSms.OfTypeAppend` | src/extractsms.py:82-83 | filtering keeps the log's order: the selection of a concatenation is the concatenation of the selections |
| `ExtractSms.OfTypeWellFormed` | src/extractsms.py:80-83 | a selection from well-formed records holds only well-formed records |
| `ExtractSms.TypesPartition` | src/extractsms.py:82-83 | the received, sent and unknown messages together number all messages |
| `ExtractSms.Analyze` | src/extractsms.py:80-105 | the run succeeds exactly when the log loads and has at least one received and one sent message. Then the three summaries are those of the received, sent and all messages, each average is the mean stored length of its selection, and the three lists are the projections at bound 100, each length in one run. A load failure reports the first failing child; an empty selection reports `EmptyInput` |

## Left out

- Reading and parsing the XML file, and the fixed file name: the model starts
  from the sequence of attribute maps of the root's children.
- All printed output, and `pprint_metrics`: string formatting only.
- `datetime.fromtimestamp`: the conversion of the seconds to a local calendar
  time depends on the time zone, so the record keeps the whole seconds.
  The errors it raises for out-of-range times are not modelled.
- Floating point: the average is an exact `real`, not a double.
- Python 2 one-shot iterators (`.next()`, `ifilter`): the input is a sequence,
  and the filter is a sequence filter.
- `len` of a body counts Dafny characters (Unicode scalar values). The counts
  of Python 2 byte strings and of narrow-build unicode strings are not modelled.
- Python 2 quirks of `int` are not modelled: whitespace between the sign and
  the digits, and non-ASCII whitespace and digits in unicode strings (Python 2
  reads `u'\xa01234'` as 1234; the model rejects it). Surrounding ASCII
  whitespace, a sign and ASCII digits are modelled.
- The local `total` of `histogram_d3_data` is kept and tracks the output
  length, but the program never returns it.
