# Job bot: seen-ledger deduplication and keyword filtering

This project models the core of `job_bot.py`, a batch job that fetches DevOps
job postings, notifies a Discord webhook about each new relevant one, and
keeps a text file of the ids it has already notified (`seen_jobs.txt`) so that
later runs do not notify them again.

The model covers the body of `main`:

- **Loading the ledger** (`Ledger.LoadSeen`). An absent file gives the empty
  seen set. An existing file gives the set of its lines.
- **The per-job loop** (`JobBot.ProcessJobs`, specified by `JobBot.Notified`).
  A job whose id is in the loaded seen set is skipped. Any other job is
  notified and its id recorded exactly when its lowercased description contains
  `aws`, `kubernetes`, `docker` or `terraform` as a substring
  (`Text.IsRelevant`).
- **The append-only flush** (`Ledger.Flush`). Each recorded id is appended as
  the id followed by `'\n'`.
- **A whole run** (`JobBot.Run`) and what repeated runs do
  (`JobBot.RerunNotifiesNothing`). The re-run guarantee needs a ledger that
  is empty or ends in a line break. Otherwise the first appended id is glued
  onto the last line, and both ids are notified again on later runs
  (`Ledger.UnterminatedLedgerGluesIds`).

Fetching is an input: the sequence of `Job` values. Notifying is an output:
the `sent` log, one entry per call of the notifier, in call order. The ledger
file is an `Option<string>` input (`None` when the file does not exist) and a
`string` output (its text after the run).

Points of the code's behaviour that the model keeps:

- The seen set is loaded once and not updated during the loop, so an unseen,
  matching job fetched twice in one run is notified twice and recorded twice
  (`JobBot.NotifiedCount`, `JobBot.DuplicateNotifiedTwice`).
- Only the description is matched. The title plays no part
  (`JobBot.TitleIsIgnored`).
- The keywords are `aws`, `kubernetes`, `docker` and `terraform`. The
  notification does not carry the list of matched keywords.
- The ledger file is opened for appending even when there is nothing to
  append, so an absent file becomes an empty one (`Ledger.Existing`). Its
  text is then unchanged, and it loads to the same empty set.
- There is one fetch per run.

## Model

| member | source | states |
|---|---|---|
| `Ledger.Existing` | job_bot.py:47 | The text the append opens: the ledger's text, or "" for a missing file, which `'a'` mode creates. Loading it gives the same seen set as loading the ledger itself. |
| `Ledger.SplitLines` | job_bot.py:33 | `splitlines()` with `'\n'` as the only break. Only the empty text has no lines. `Ledger.RenderSplit`, `Ledger.SplitRender` and `Ledger.SplitLinesHaveNoBreaks` characterise it. |
| `Ledger.Render` | job_bot.py:47-49 | The text the write loop appends: each id followed by `'\n'`. It is empty or ends in a line break, and it is non-empty when there is an id. `Ledger.SplitRender` shows that it parses back to the ids. |
| `Ledger.LoadSeen` | job_bot.py:31-35 | An absent ledger gives the empty seen set. No loaded id contains a line break. |
| `Ledger.LineEnd` | job_bot.py:33 | The result is at most the text's length. When it is less, the character there is a line break. |
| `Ledger.NoBreakBeforeLineEnd` | job_bot.py:33 | No line break comes before the index LineEnd returns, so that index is the first line break (or the end of the text). |
| `Ledger.SplitLinesHaveNoBreaks` | job_bot.py:33 | No line parsed from the ledger contains a line break. |
| `Ledger.RenderSplit` | job_bot.py:33 | Writing the parsed lines back, each followed by a line break, gives the original text. A final line break is added if the text lacked one. |
| `Ledger.SplitRender` | job_bot.py:47-49 | Ids without line breaks, written one per line, parse back to the same ids in the same order. |
| `Ledger.SplitAppend` | job_bot.py:33 | Parsing an empty or newline-terminated text followed by more text gives the lines of the first part, then the lines of the second. |
| `Ledger.RenderAppend` | job_bot.py:47-49 | Writing two lists of ids one after the other gives the same text as writing their concatenation. |
| `Ledger.AppendKeepsTerminated` | job_bot.py:47-49 | Appending to an empty or newline-terminated ledger keeps it empty or newline-terminated. |
| `Ledger.Flush` | job_bot.py:47-49 | The new ledger is the old text (or "" if the file was absent) followed by each recorded id and a line break, in order. The old text is a prefix of the new. With no recorded ids the text is unchanged. |
| `Ledger.ReloadAfterFlush` | job_bot.py:31-49 | Reloading after a flush gives the old seen set together with the recorded ids. This needs an empty or newline-terminated old text and ids without line breaks. |
| `Ledger.UnterminatedLedgerGluesIds` | job_bot.py:31-49 | Appending "def" to a ledger "abc" that lacks a final line break makes it load as {"abcdef"}, so neither id counts as seen. |
| `Ledger.TwoRunsAppend` | job_bot.py:47-49 | After runs recording "1", "2" and then "3", starting from no ledger, the ledger loads as exactly {"1", "2", "3"}. |
| `Text.LowerChar` | job_bot.py:41 | `.lower()` on one character: an ASCII capital becomes the lowercase letter at the same place in the alphabet, and any other character is unchanged. The result is never an ASCII capital. |
| `Text.Lower` | job_bot.py:41 | `.lower()` on the description keeps its length and lowercases each character in place, leaving no ASCII capital letter. |
| `Text.LowerOccursIgnoringCase` | job_bot.py:41-42 | A lowercase word occurs at index i of the lowercased text exactly when the text's slice at i equals the word up to ASCII case. |
| `Text.Contains` | job_bot.py:42 | The `in` substring test holds when the keyword is a prefix of the text, and only if the keyword is no longer than the text. `Text.ContainsIsSubstring` characterises it fully. |
| `Text.IsRelevant` | job_bot.py:41-42 | The filter: some keyword occurs in the lowercased description. A description shorter than 3 characters is never relevant, so an empty one never is. `Text.RelevantIffKeywordOccurs` characterises it. |
| `Text.ContainsIsSubstring` | job_bot.py:42 | The substring test holds exactly when the keyword occurs at some index of the text. |
| `Text.AnyOccurs` | job_bot.py:42 | The result is true exactly when some keyword in the list is a substring of the text. |
| `Text.RelevantIffKeywordOccurs` | job_bot.py:41-42 | A description is relevant exactly when one of the four keywords occurs at some index in its lowercased form. |
| `Text.RelevantIffKeywordIgnoringCase` | job_bot.py:41-42 | A description, as fetched, is relevant exactly when one of the four keywords equals one of its slices up to ASCII case. |
| `Text.UpperCaseKeywordMatches` | job_bot.py:41-42 | A description naming "AWS" in upper case is relevant. |
| `JobBot.Admits` | job_bot.py:39-42 | A job passes the loop's test exactly when its id is not in the loaded seen set and one of the four keywords occurs at some index of its lowercased description. |
| `JobBot.Notified` | job_bot.py:38-44 | The jobs the loop sends, in fetch order. There is at most one per fetched job, and each passes the test. `JobBot.NotifiedMember`, `JobBot.NotifiedCount` and `JobBot.NotifiedAppend` characterise it. |
| `JobBot.ProcessJobs` | job_bot.py:37-44 | The loop sends exactly the jobs that are unseen and relevant, in fetch order. It records one id per send, namely that job's id, in the same order. |
| `JobBot.Run` | job_bot.py:27-49 | A run sends what the loop selects against the loaded ledger. The ledger afterwards is the old text followed by the sent jobs' ids, one per line. |
| `JobBot.NotifiedAppend` | job_bot.py:38-44 | Filtering two fetched lists one after the other gives the filter of their concatenation, so fetch order is kept. |
| `JobBot.NotifiedMember` | job_bot.py:39-44 | A job is notified exactly when it was fetched, its id is not in the loaded seen set, and its description is relevant. |
| `JobBot.NotifiedCount` | job_bot.py:37-44 | An admitted job is notified as many times as it was fetched. Any other job is never notified. |
| `JobBot.DuplicateNotifiedTwice` | job_bot.py:39-44 | An unseen, relevant job fetched twice in one run is notified twice. |
| `JobBot.SeenNeverNotified` | job_bot.py:39 | No job whose id is in the loaded ledger is notified. |
| `JobBot.TitleIsIgnored` | job_bot.py:41 | Two fetches whose jobs differ only in their titles send the same number of jobs with the same ids in the same order. |
| `JobBot.NothingAdmitted` | job_bot.py:38-44 | When no fetched job passes the test, nothing is notified. |
| `JobBot.RerunNotifiesNothing` | job_bot.py:31-49 | Running again over the same jobs against the ledger the first run left notifies nothing. This needs an empty, absent or newline-terminated ledger and ids without line breaks. |
| `JobBot.RunKeepsTerminated` | job_bot.py:47-49 | The ledger a run leaves behind stays empty or newline-terminated, so the round trip holds run after run. |

## Left out

- `fetch_jobs` (job_bot.py:10-14): the HTTP request to the Adzuna API and the JSON decoding are network I/O. The fetched jobs are an input.
- `send_to_discord` (job_bot.py:16-25): building and posting the webhook payload is network I/O. Each call is modelled as an entry in the `sent` log.
- Configuration from environment variables (job_bot.py:6-8) is left out.
- File-system calls (`os.path.exists`, `open`) are replaced by an `Option<string>` ledger input and a string output.
- `Text.Lower` lowercases ASCII letters only. Python's `str.lower` applies full Unicode case mapping, which differs in two ways. It can change the length: `'İ'.lower()` is two code points, so the "keeps its length" clause holds of the model only. It can also produce ASCII letters from other characters: U+212A KELVIN SIGN lowercases to `'k'`. A description spelling the Kelvin sign followed by "ubernetes" is therefore relevant to the code but not to the model.
- `Ledger.LoadSeen` splits on `'\n'` only. Python's `splitlines` also splits on `'\r'`, `'\x0b'`, `'\x0c'`, `'\x1c'`-`'\x1e'`, `'\x85'`, `'\u2028'` and `'\u2029'`. The round-trip lemmas assume ids without line breaks.
- A job without an `id` makes the code raise `KeyError` at the seen test and stop. The description is read only for a job whose id is unseen. Such a job without a `description` raises `KeyError`, and one whose description is JSON `null` raises `AttributeError` at `.lower()`. A seen job without a description raises nothing. The model's jobs always have both fields as strings.
- The `company`, `location` and `redirect_url` fields are read only by the notifier, so `Job` does not carry them.
- Two overlapping runs are left out. The code has no locking, and the model describes one run at a time.
- An exception from the notifier stops the run before the flush, so that run's ids are never recorded. The model has no failing notifier.
- `JobBot.RerunNotifiesNothing` holds only for string ids, because the model's ids are strings. The code compares ids as they come from the fetch. A non-string id, such as an integer from the JSON, would never equal one of the string lines loaded from the ledger. That job would then be notified again on every run.
