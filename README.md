# Email campaign report: top-variant ranking and report assembly

The script `create_email_report.py` builds a CSV report of broadcast-email
performance. It does three things. It reads every email id from a marketing
API and sorts the ids in ascending order. For each email it reads the
aggregate counters (recipients, opens, clicks, unsubscribes, bounces). It
then ranks the email's A/B variants by open ratio to name a winner. Each row
of the report is `[id, name, recipients, opens, clicks, unsubscribes,
bounces, top variant]`.

This Dafny project models the decision logic once the data has been
fetched. There are three modules:

- `Errors` (`errors.dfy`) holds the failures that abort a run (unknown email,
  missing counter, division by zero) and a `Result` type. In the script each
  is an exception that propagates, uncaught below `main`, to its top-level
  `except Exception` handler (create_email_report.py:105-110), which prints
  a traceback and returns 1 without writing the file. That handler is left
  out; the model returns the failure instead.
- `Ranking` (`ranking.dfy`) holds the variant ranker `TopVariant`. It is a
  method whose loop keeps the running best (name, ratio, recipients), just
  as the script's `for` loop does. It is proved against `IsTop`, a
  declarative definition of the winner: no variant has a higher open ratio,
  none with the same ratio has more recipients, and no earlier variant ties
  it on both. Ratios are exact rationals compared by cross-multiplication
  (`o1 * r2` against `o2 * r1`). The running best starts at ratio 0/1 with 0
  recipients, as the script's `0.0` and `0` do.
- `Report` (`report.dfy`) holds the API snapshot, a map from email id to a
  detail record (name, counters by name, variants with their statistics).
  `EmailStats` orders one email's columns with the script's loop over the
  counter names. `SortAscending` gives the sorted ids. `BuildReport`
  pre-sizes an array of rows and fills it by index.

Division by zero: a variant with zero recipients makes the script's ratio
computation raise. The model makes this an explicit error result,
`DivisionByZero(emailId, position)`, at the first such variant, and the
whole report fails with it. It is not a precondition, and such a variant is
not given ratio 0: the model follows the code, which fails.

API lookups: a counter missing from an email's `statistics` makes the
script raise a `KeyError` (create_email_report.py:41); the model returns
`MissingStatistic` naming the first missing counter in column order. For an
id the API does not know, the script's behaviour depends on the API's
reply: `requests.get` does not raise on an error status, and `json.loads`
raises on a body that is not JSON. The model assumes the API answers with a
JSON body that has no `statistics` field, which raises a `KeyError` at
create_email_report.py:38, and represents that as `UnknownEmail`. `TopVariant` also returns `fetched`, the number of
variant-statistics lookups the scan makes. It is 0 for an empty variant
list.

## Model

| member | source | states |
|---|---|---|
| Ranking.TopVariant | create_email_report.py:52-75 | Succeeds exactly when every variant has recipients. On success the name is the empty string for no variants and otherwise the name of the `IsTop` variant: greatest open ratio, most recipients among equal ratios, earliest among full ties. It makes one lookup per variant, so none for an empty list. On failure it names the first zero-recipient variant, after which no further lookups happen. |
| Ranking.TopExtend | create_email_report.py:68-72 | One step of the scan. Appending a variant makes it the top exactly when the replacement test holds against the current top (strictly greater ratio, or equal ratio and strictly more recipients). Otherwise the top keeps its position, so a later full tie never displaces it. |
| Ranking.TopExists | create_email_report.py:54-56 | Every non-empty list of variants with recipients has a top variant. The first variant always displaces the initial ratio-0, 0-recipient state, so the winner is never the empty default. |
| Ranking.TopUnique | create_email_report.py:68-69 | At most one position is the top, so the winner's name is determined by the variant list. |
| Ranking.RatioAtMostTrans | create_email_report.py:64 | Comparing open ratios by cross-multiplication is transitive when all recipient counts are positive. |
| Report.EmailStats | create_email_report.py:35-42 | Succeeds exactly when the email is known and has all five counters. The row is then `[id, name]` followed by recipients, opens, clicks, unsubscribes and bounces in that order, each copied from the statistics. The email's variants are returned unchanged. Otherwise it reports the unknown id or the first missing counter. |
| Report.SortAscending | create_email_report.py:87 | The sorted ids are in ascending order and are a permutation of the enumerated ids, duplicates included. |
| Report.Insert | create_email_report.py:87 | Inserting an id into an ascending sequence keeps it ascending and adds exactly that id. |
| Report.BuildReport | create_email_report.py:86-95 | Succeeds exactly when every enumerated email succeeds. On success there is exactly one row per sorted id, at that id's position. Each row is the email's statistics row followed by its top variant's name. On failure the error names an enumerated email and is the failure that email raises, and every enumerated email with a smaller id succeeded. |
| Report.EmailRow | create_email_report.py:92-95 | One pass of the report loop. Succeeds exactly when the email's counters are complete and all its variants have recipients. The row is then the statistics row with the winner's name appended. Otherwise the error is the first failure the email raises. |
| Report.FirstFailure | create_email_report.py:87-95 | When the email at some position of the sorted ids fails after only successes, the failing id is one of the enumerated ids and cannot produce a row. Every enumerated id below it succeeds, so the report stops at the first failing email in ascending order. |
| Report.ReportRowsInIdOrder | create_email_report.py:87-95 | The rows' id column is the sorted id sequence, so the rows are in ascending id order. |
| Report.CountersIgnoreVariants | create_email_report.py:39-42 | The first seven columns of an email's row are the same whatever its variants are. The counters come from the email's aggregate statistics, never from variant data. |
| Report.FailureExcludesSuccess | create_email_report.py:37-42 | An email that raises any of the three failures cannot produce a row. |

## Left out

- `call_api` (create_email_report.py:20-26): the HTTP GET, Basic authentication and JSON decoding are replaced by the `Api` map given as input.
- `get_api_key` (create_email_report.py:13-17): loading the key from the environment has no counterpart; the credential never affects the data.
- `get_email_ids` and `get_variant_stats` (create_email_report.py:29-32, 45-49): the enumerated ids are an input sequence, and each variant's statistics sit inside the email's record. Variant ids, which only key the lookups, are not modelled.
- Response shapes other than an unknown email id and a missing counter are not modelled: a body that is not JSON (a decode error in `json.loads`), a missing `name` or `variants` field, a missing `items` field, or non-integer counters. All counters are natural numbers.
- Writing `EmailReport.csv` and its header row (create_email_report.py:97-102): file output is left out. `BuildReport` returns the data rows and writes nothing on failure, as the script does.
- Diagnostic printing under the verbose flag (create_email_report.py:57-59, 65-67, 73-74) has no effect on the result and is left out.
- The top-level exception handler, the traceback and the exit code (create_email_report.py:105-110), and argument parsing (create_email_report.py:113-118), are left out.
- Ranking.TopVariant: ratios are exact rationals, not Python floats. For very large counts, float division can make two different ratios compare equal, and that divergence is not modelled.
- Report.SortAscending: it models the result of Python's `sorted` on integers (an ascending permutation), not its algorithm.
