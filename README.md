# BTC rate service: subscriber log, rate composition and mail dispatch

This project models the core of a small FastAPI service that reports the
bitcoin price in Ukrainian hryvnia and mails it to subscribers. Three pieces
of `app/main.py` are modelled:

- **Subscriber log** (`subscribe`). The file `db.txt` is modelled as
  `Option<seq<string>>`. `None` is a missing file. `Some(lines)` holds the
  lines a reader sees, each with its terminating `"\n"`. The class
  `Registry.SubscriberLog` holds that file. Its method `Subscribe` scans the
  lines in order and returns 409 at the first line that contains the address
  as a substring. If no line matches, it appends `email + "\n"`, creating the
  file when it is missing. The ghost function `Registry.Register` states the
  same step as a value, and the lemmas are stated about it.
- **Rate composition** (`request_data`, `get_btc_to_usd_rate`,
  `get_currency_rate`, `read_btc_rate`). These are functions over
  `Rates.Fetch`: a `Result` paired with the list of URLs requested, in order.
  The network is a parameter `net: string -> Response<Q>`. A JSON body is
  seen through the quantity found at each field path. The product of the
  two rates is a parameter `mul`.
- **Dispatch** (`send_emails`). A missing file gives 405. Otherwise the
  recipients are the stripped lines (`Mailing.Recipients`). Then the rate is
  awaited. Only when it succeeds is one message to all recipients queued.

`Text` models Python's `email in line` (`Contains`, specified by `Occurs`)
and `str.strip()` (`Strip`, specified by `StrippedAt`, using the full
`str.isspace` character set).

Where the intended design and the code differ, the model follows the code:

- Duplicates are detected by substring containment, not by equality. A new
  address contained in an existing line is refused, for example `a@x.com`
  after `ba@x.com` (`Registry.SuffixAddressRefused`).
- An existing but empty log is not an error. The message is queued with no
  recipients. Only a missing file gives 405.
- The two upstream requests run one after the other. A failure of the first
  means the second is never issued.
- A missing JSON field is not reported as its own error.
- Registration takes no lock and does not append atomically.

## Model

| member | source | states |
|---|---|---|
| `Registry.SubscriberLog.Subscribe` | app/main.py:84-104 | The reply is 409 exactly when some existing line contains the address as a substring, and the log is then unchanged. Otherwise the reply is "email added" and the log becomes the old lines, unchanged and in order, plus one line `email + "\n"`. A missing file is treated as empty and then created. The status code is 409 or 200 accordingly. `email` is the form value after its validation as an email address. The loop invariant is that no line scanned so far contains the address. |
| `Registry.SubscribeTwice` | app/main.py:87-104 | A second subscription of the same address right after the first is always refused and leaves the log as the first left it. Overall the log grows by exactly one line when the address was new and by none otherwise. |
| `Registry.ContainingLineRefuses` | app/main.py:94-100 | If any line has the form `before + email + after`, the subscription is refused and the log is unchanged. |
| `Registry.SuffixAddressRefused` | app/main.py:94 | With the line `"ba@x.com\n"` in the log, subscribing the different address `"a@x.com"` is refused. |
| `Registry.RegisterKeepsDeduplicated` | app/main.py:87-104 | One subscription preserves this invariant: every line ends in `"\n"`, and no line contains the address of a later line. |
| `Registry.RegisterAllKeepsDeduplicated` | app/main.py:87-104 | Any sequence of subscriptions preserves that invariant. |
| `Registry.DeduplicatedHasDistinctAddresses` | app/main.py:94-103 | In a log with the invariant, no two lines record the same address. |
| `Registry.SubscriptionsNeverDuplicate` | app/main.py:84-104 | Starting from a missing file, any sequence of subscriptions leaves a log with no two equal lines. |
| `Text.Contains` | app/main.py:94 | `Contains(line, email)` is true exactly when `email` occurs as a contiguous slice of `line`. The empty string occurs everywhere. |
| `Text.Strip` | app/main.py:117 | The result is a slice of the input. Everything outside the slice is whitespace in the sense of `str.isspace`. The result neither starts nor ends with whitespace. |
| `Text.StrippedUnique` | app/main.py:117 | Only one string meets that characterisation, so `Strip` is fully determined by its contract. |
| `Text.StripClean` | app/main.py:117 | A string with no leading or trailing whitespace is returned unchanged. |
| `Text.StripLineTerminator` | app/main.py:117 | Stripping `s + "\n"` gives the same result as stripping `s`. |
| `Mailing.Recipients` | app/main.py:116-117 | The recipient list has one entry per line of the log, in file order, and each entry is that line stripped. |
| `Mailing.RecipientsAppend` | app/main.py:117 | Appending a line to the log appends its stripped form to the recipients and leaves the earlier recipients unchanged. |
| `Mailing.RecipientsAfterSubscribe` | app/main.py:102-117 | After a successful subscription, the recipients are the old recipients plus the stripped address. An address with no surrounding whitespace comes back unchanged as the last recipient, so the write and the strip round-trip. |
| `Mailing.SendEmails` | app/main.py:107-127 | A missing file gives 405, with no request issued and nothing queued. An existing file never gives 405, even when it is empty. A non-200 answer from Coindesk gives 503 naming that URL, after that one request and with nothing queued. A non-200 answer from the exchange-rate feed gives 503 naming it, after both requests and with nothing queued. A message is queued exactly when the file exists and both answers are 200. It goes to the stripped lines (recipient validation is under Left out), carries the subject "Latest BTC rate" and holds the product of the two rates. The status code is 405, 503 or 200 accordingly. |
| `Rates.RequestData` | app/main.py:52-57 | Exactly one request is issued, to the given URL. The result succeeds exactly when the status is 200, with the decoded body. Otherwise it is a 503 naming the URL. |
| `Rates.GetBtcToUsdRate` | app/main.py:68-73 | One request is issued, to the Coindesk URL. A 200 answer yields the quantity at `bpi.USD.rate_float`. Any other status gives a 503 naming that URL. |
| `Rates.GetCurrencyRate` | app/main.py:60-65 | One request is issued, to the exchange-rate URL with base `from`. A 200 answer yields the quantity at `rates.<to>`. Any other status gives a 503 naming that URL. |
| `Rates.ReadBtcRate` | app/main.py:76-81 | A value is returned exactly when both upstreams answer 200, and it is `mul` of the BTC/USD quantity and the USD/UAH quantity. If Coindesk fails, the result is its 503 after that one request and the exchange-rate feed is never asked. If Coindesk succeeds, both URLs are requested in order, and a failure of the second gives its 503. |

## Left out

- The network call `requests.get` and the `.json()` decoding. The upstream is the parameter `net`, which is fixed for one call. Non-JSON bodies are not modelled.
- Exceptions raised by `requests.get` itself, such as a connection failure, and a request that never returns (no timeout is set). In the model `net` always answers with a status.
- Missing JSON fields. A missing field makes the code fail with `AttributeError` or `TypeError`, or return `None` as a rate. In the model every field path yields a quantity.
- Floating-point multiplication. The product of the two rates is the caller-supplied `mul`.
- The text of the message body, which formats the rate with an f-string. The model records the rate value the message carries.
- Mail configuration (`Envs`, `ConnectionConfig`) and the sending itself (`FastMail.send_message`). The model records only whether one message was queued, and with which recipients.
- The `BackgroundTasks` detachment. It is concurrency plumbing.
- FastAPI routing, tags, `JSONResponse`/`HTTPException` plumbing and pydantic `EmailStr` validation of the subscribe input. These are reduced to the `Common.Reply` alternatives and their status codes. The address `Subscribe` receives is the value after that validation; the 422 answer to an invalid address has no `Reply` alternative.
- Mailing.SendEmails: does not capture the validation and normalisation that `MessageSchema` applies to the recipients (app/main.py:120-124). A log line that strips to something that is not an address, such as a blank line, makes the real call fail with a 500 after both rate requests, with nothing queued. An accepted address may also be normalised, for example by lower-casing its domain. The model queues the stripped lines as they are, so its row holds for logs written only through `/subscribe` with addresses that need no normalisation.
- Concurrency and crash atomicity. The code takes no lock and its append is not atomic, so there is no guarantee to state.
- How the file's bytes split into lines. The file is taken to be the sequence of lines a reader sees. Three effects of the real file are therefore not captured: an address containing a line break, which would write more than one line; a last line lacking its `"\n"`, which the next append would extend; and the newline translation of text mode.
- File I/O errors and the `os.path.isfile` call itself. Only "file exists or not" is modelled.
