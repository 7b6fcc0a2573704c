# Email verification-code handler, modelled in Dafny

This project models `EmailVerificationHandler` from `get_email_code.py`. The handler
polls a temporary inbox over the provider's HTTP API and reads the newest mail. It
pulls a six-digit verification code out of the mail text and then deletes that mail.

- **`_get_latest_mail_code`** is one poll. It makes a list request and then a detail
  request. Three gates each end the poll with `(None, None)`: a falsy list `result`,
  a falsy `first_id`, and a falsy detail `result`. Past the gates, two regular
  expressions run over the mail text:
  - `(?<![a-zA-Z@.])\b\d{6}\b` is a contiguous six-digit code.
  - `(\d\s){5}\d` is a spaced code such as `9 7 7 1 8 2`. It runs only when the first
    expression finds nothing, and its whitespace is removed from the result.
- **`_cleanup_mail`** sends up to five delete requests. It stops at the first answer
  whose JSON `result` is exactly `True`.
- **`get_verification_code`** makes up to `max_retries` attempts. Only an attempt
  that raises is retried.

Layout:

- `wrappers.dfy`: `Option` (Python's `None` or a value) and `Outcome` (a call raised,
  or it returned a value).
- `json_values.dfy`: decoded JSON values, Python truthiness, `dict.get`, and `Reply`.
  A `Reply` is what one HTTP request yields: the request raised, the body is not JSON,
  or the body parsed to a value.
- `code_pattern.dfy`: the extractor. Each regular expression is written twice:
  - as the pattern the regex engine tries at one start position (`ContiguousPatternAt`,
    `SpacedPatternAt`, built from the lookbehind, `\b`, `\d`, `\s` and the repetition);
  - as a plain description of the text around a code (`ContiguousCodeAt`,
    `SpacedCodeAt`).

  Lemmas prove the two forms equal. The search functions scan from the left, as
  `re.search` does. Their contracts say they return the leftmost position the
  description admits.
- `code_examples.dfy`: worked inputs for the extractor. They cover the spaced format
  from the source's comment, precedence, and rejected digit runs.
- `mail_handler.dfy`:
  - the poll with its gates (`LatestMailCode`);
  - the delete loop, as a method (`CleanupMail`) proved against a specification
    function (`CleanupOutcome`);
  - the retry loop (`GetVerificationCode`), proved against the specification of one
    attempt (`RunAttempt`).

The provider's answers are inputs, listed in the order the handler sends its requests.
The retry loop gets one `AttemptScript` per attempt: the list answer, the detail answer
and at least five delete answers. Sleeps are counted, not timed.

`get_verification_code` retries only an attempt that raises. A poll that finds no mail
or no code returns `None` at once, and that `None` is returned.

## Model

| member | source | states |
|---|---|---|
| `CodePattern.ContiguousPatternIsCode` | get_email_code.py:74 | the lookbehind, `\b`, `\d{6}`, `\b` match at `i` iff `t[i..i+6]` is six digits, `i` is 0 or `t[i-1]` is neither a word character nor `@` or `.`, and `i+6` is the end or `t[i+6]` is not a word character |
| `CodePattern.FindContiguous` | get_email_code.py:74 | the search returns a position at or after `from` holding a contiguous code, and no earlier position from `from` holds one; it returns none only when no position does |
| `CodePattern.GroupsAtAlternate` | get_email_code.py:79 | `(\d\s){n}` matches at `j` iff the `2n` characters from `j` alternate digit, whitespace |
| `CodePattern.SpacedPatternIsCode` | get_email_code.py:79 | `(\d\s){5}\d` matches at `j` iff the 11 characters from `j` have digits at even offsets and whitespace at odd offsets |
| `CodePattern.FindSpaced` | get_email_code.py:79 | the search returns the leftmost spaced window at or after `from`, or none when no window exists |
| `CodePattern.RemoveSpaces` | get_email_code.py:82 | `re.sub(r'\s', '', s)` leaves no whitespace and never lengthens the string; the empty string stays empty, a single whitespace character is removed and any other single character is kept |
| `CodePattern.RemoveSpacesConcat` | get_email_code.py:82 | removing whitespace from `a + b` gives the result for `a` followed by the result for `b`; with the single-character cases, every non-whitespace character is kept, in order |
| `CodePattern.RemoveSpacesOfAlternating` | get_email_code.py:82 | on a string alternating digit, whitespace, ..., digit of length `2n+1`, removing whitespace leaves exactly the `n+1` characters at even offsets |
| `CodePattern.SpacedWindowWithoutSpaces` | get_email_code.py:79-82 | a spaced window with its whitespace removed is `t[j], t[j+2], ..., t[j+10]`, six digits |
| `CodePattern.ExtractCode` | get_email_code.py:73-86 | a returned code is six digits whichever rule found it; nothing is returned iff the text holds neither a contiguous code nor a spaced window |
| `CodePattern.ExtractCodeContiguous` | get_email_code.py:74-84 | when the leftmost contiguous code starts at `i`, the result is `t[i..i+6]`, even if a spaced window comes earlier |
| `CodePattern.ExtractCodeSpaced` | get_email_code.py:76-82 | when no contiguous code exists and the leftmost spaced window starts at `j`, the result is `t[j], t[j+2], ..., t[j+10]` |
| `CodeExamples.SpacedExample` | get_email_code.py:78-82 | `9 7 7 1 8 2` yields `977182` |
| `CodeExamples.ContiguousBeatsEarlierSpaced` | get_email_code.py:74-84 | in `1 2 3 4 5 6 or 654321` the contiguous `654321` wins over the earlier spaced window |
| `CodeExamples.RejectedRuns` | get_email_code.py:74 | digits after `@` or `.`, and a seven-digit run, yield no code |
| `MailHandler.MailText` | get_email_code.py:69-74 | a missing `text` key reads as the empty text; a present string is read as that string; any other value (JSON `null` included) makes the search raise |
| `MailHandler.LatestMailCode` | get_email_code.py:44-86 | a poll that returns a code returns six digits paired with a truthy `first_id`; a poll without a code returns `(None, None)` |
| `MailHandler.GatingYieldsNothing` | get_email_code.py:52-66 | a falsy list `result` or a falsy `first_id` yields `(None, None)` whatever the detail answer; a falsy detail `result` yields `(None, None)` whatever the mail text |
| `MailHandler.PollRaises` | get_email_code.py:48-74 | a poll raises iff the list request fails or its body is not a JSON object, or, past the list's gates, the detail request fails or its body is not a JSON object, or, past the detail's gate, `text` is present but not a string |
| `MailHandler.PollReturnsExtractedCode` | get_email_code.py:68-86 | past the gates, the poll returns the extractor's code with the list's `first_id`, or `(None, None)` when the text holds no code; a missing `text` gives `(None, None)` |
| `MailHandler.CleanupOutcomeFirstDecisive` | get_email_code.py:99-111 | the delete loop returns `False` iff all five answers are failures; otherwise the first decisive answer decides: `True` for a `result` that is exactly `True`, an exception for a request that raised |
| `MailHandler.CleanupMail` | get_email_code.py:89-111 | sends between 1 and 5 delete requests and stops at the first accepted or raising one; every earlier answer was a failure; it returns `True` iff the last answer accepted and raises iff the last request raised; it sleeps once after every failure |
| `MailHandler.TryAttempt` | get_email_code.py:26-31 | one pass of the `try` block (poll, then the delete loop when a code and its `first_id` came back) behaves as `RunAttempt` |
| `MailHandler.CleanupPairing` | get_email_code.py:28-31 | cleanup runs exactly when the poll found a code, with the poll's `first_id`, which is truthy; a returned code is six digits and its cleanup did not raise |
| `MailHandler.GetVerificationCode` | get_email_code.py:13-40 | makes at most `max_retries` attempts and none when `max_retries <= 0` (then it raises); each attempt behaves as `RunAttempt`; every attempt but the last raised; the result is the last attempt's outcome, `None` included; it raises only after `max_retries` raising attempts; it sleeps between attempts only |

## Left out

- HTTP: the tempmail.plus URLs, query strings, the delete payload and `requests.Session`. Each request's answer is an input `Reply`.
- The handler's constructor and fields: `email` and `temp_email_address` only go into the request URLs and the delete payload, and nothing updates them.
- `time.sleep`: durations are not modelled. The retry loop and the delete loop count their sleeps. The two 0.5-second sleeps inside a poll are not counted.
- Logging calls and the wording of exception messages. An exception is `Raised`, without type or message.
- Character classes: `\d`, `\w` and `\s` are exact for ASCII characters. That covers digits, letters, `_`, and ASCII whitespace including 0x1C-0x1F. A non-ASCII character counts as neither digit, word character nor whitespace. Python's Unicode classes would treat, for example, an accented letter before the digits as a word character.
- JSON numbers are reals. Python's distinction between `int` and `float`, NaN and infinities are not modelled. Only truthiness (non-zero) and identity with `True` are used.
- The mail `subject`: it is only logged.
- A `max_retries` that is not an integer.
- The `__main__` block.
- GetVerificationCode and CleanupMail need the script to answer every request they may send: at least `max_retries` attempt scripts, and at least five delete answers per attempt. Every request either raises (`RequestFailed`) or gets a body (`NotJson` or `Parsed`), so requiring one answer per request loses no behaviour.
