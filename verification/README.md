# Running-coach bot: message gate, reply extraction and run journal

This project models the pure logic inside the Telegram running-coach bot
(`main.py`), with its I/O passed in as parameters, and proves properties of it
in Dafny. The pieces are:

- **the inbound gate** of `handle_message`: a message in a chat of type
  `"group"` is dropped unless it contains `@rrunning_coach_bot`. If it does,
  every mention is removed and the rest is stripped. A message from any other
  chat type passes through unchanged (`gate.dfy`);
- **reply extraction** in `classify_and_extract`: the text from the first `{`
  to the last `}` of the reasoning service's reply is cut out with Python's
  `find`, `rfind` and clamping slice, then decoded (`extract.dfy`);
- **the journal step** in `handle_message`: `log_run` appends one
  `{date, distance_km}` entry to the sender's list and saves the journal.
  `analyze_progress` and every other intent leave it alone and reply with fixed
  text. A missing field raises `KeyError` before anything changes
  (`journal.dfy`);
- **`load_memory`**: the journal file's content, if the file exists, is
  stripped and decoded. A missing file, blank content or undecodable content
  gives the empty journal (`store.dfy`);
- **the whole handler**, composing the four (`handler.dfy`).

Python's string operations are modelled with their real semantics in
`pystrings.dfy` (`find`, `rfind`, `in`, slicing, `replace(pat, "")`) and
`whitespace.dfy` (`strip`, with the full `str.isspace` character set).
`values.dfy` holds the decoded JSON values, Python's `str()` of them as the
confirmation reply uses it, and the two errors that abort a message.

Collaborators become parameters. The reasoning service is a function from the
delivered text to its reply text, with today's date fixed inside it. The two
`json.loads` calls are arbitrary partial decoders. The file content is an
`Option<string>`, and saving is recorded as a `saved` flag on the outcome.

Three behaviours of the code are worth stating plainly:

- The gate is in `handle_message` itself. It tests `chat.type == "group"`
  only, so messages from a `"supergroup"` pass through unfiltered.
- The gate removes every mention anywhere in the text, not only a leading one.
- A reply with no braces is not detected explicitly. The slice gives the
  empty string, or a lone `}` when the reply ends in one and has no `{`, and
  decoding that fails. `Extract.ClassifyWithoutBracesFails` states this for
  any decoder that rejects those two texts.

## Model

| member | source | states |
|---|---|---|
| PyStrings.Find | main.py:86 | the result is -1 exactly when the pattern occurs nowhere; otherwise the pattern occurs there and at no lower index |
| PyStrings.RFind | main.py:87 | the result is -1 exactly when the pattern occurs nowhere; otherwise the pattern occurs there and at no higher index |
| PyStrings.Slice | main.py:88 | in-range bounds give exactly `s[start..stop]`; crossed bounds after Python's negative-index and clamping rules give the empty string |
| PyStrings.SliceFromEnd | main.py:88 | a negative start counts from the end: `s[-k:]` is the last `k` characters, and a start before the beginning reads as 0 |
| PyStrings.Contains | main.py:131 | `sub in s` holds exactly when some index is an occurrence |
| PyStrings.RemoveAll | main.py:132 | `replace(pat, "")` never lengthens the text; what it computes is pinned down for every input by `PyStrings.RemoveAllViaFind` |
| PyStrings.RemoveAllViaFind | main.py:132 | `replace(pat, "")` keeps the text before the first occurrence, skips it, and repeats on what follows; with no occurrence the text is unchanged |
| PyStrings.RemoveAllUnchangedIff | main.py:132 | removing a non-empty pattern changes the text if and only if the pattern occurs in it |
| PyStrings.RemoveAllKeepsClearPrefix | main.py:132 | a prefix with no occurrence starting in it is kept verbatim by the removal |
| Whitespace.Strip | main.py:38 | the result has no whitespace at either end, is a contiguous piece of the input with only whitespace cut off, and is empty exactly when the input is all whitespace |
| Whitespace.StripUnique | main.py:132 | whitespace + trimmed core + whitespace strips to that core, so strip is uniquely determined |
| Whitespace.StripIdempotent | main.py:132 | stripping twice equals stripping once |
| Whitespace.StripIgnoresPadding | main.py:38 | whitespace added around a text does not change what it strips to |
| Values.NatToDecimal | main.py:157 | `str()` of a natural number is non-empty decimal digits with no leading zero ("0" for zero) |
| Values.NatToDecimalRoundTrip | main.py:157 | the decimal rendering of a natural number reads back as that number |
| Values.Render | main.py:157 | `str()` of a string is the string itself; `str()` of an integer is non-empty, starts with a minus exactly for negatives, and is all digits otherwise |
| Values.RenderIntFaithful | main.py:157 | `str()` of an integer has a leading minus exactly for negatives, followed by the digits of its magnitude |
| Gate.Route | main.py:130-134 | a message is dropped if and only if it is a group message without the mention; other chat types deliver their text unchanged; delivered group text is trimmed |
| Gate.GroupDeliveryViaFirstMention | main.py:130-132 | a delivered group message is the text around its first mention, with later mentions removed in turn, then stripped |
| Gate.GroupDeliveryShortens | main.py:130-132 | delivered group text is shorter than the message by at least one full mention |
| Gate.MentionOnlyDeliversEmpty | main.py:130-132 | a group message that is only the mention, padded with whitespace, is delivered as the empty text rather than dropped |
| Extract.FindChar | main.py:86 | `find` of a one-character pattern is -1 exactly when the character is absent, else its first position |
| Extract.RFindChar | main.py:87 | `rfind` of a one-character pattern is -1 exactly when the character is absent, else its last position |
| Extract.BraceSpan | main.py:85-88 | the extracted piece is never longer than the reply |
| Extract.BraceSpanShape | main.py:85-88 | for every reply the piece is empty, a lone `}`, or a substring of the reply opening with `{` and closing with `}` |
| Extract.BraceSpanBracketed | main.py:86-88 | with the first `{` at i and the last `}` at j >= i, the piece is exactly `raw[i..j+1]`, opening with `{` and closing with `}` |
| Extract.BraceSpanNoClose | main.py:87-88 | with no `}` in the reply the piece is empty, whether or not a `{` exists |
| Extract.BraceSpanReversed | main.py:86-88 | a last `}` before the first `{` gives the empty piece |
| Extract.BraceSpanNoOpen | main.py:86-88 | with no `{`, the -1 start reads as the last position: the piece is `}` when the reply ends with the last `}`, else empty |
| Extract.Classify | main.py:85-91 | classification succeeds exactly when the decoder accepts the piece, and then returns exactly the decoded object; its only failure is the decoding error |
| Extract.ClassifySuccessNeedsBraces | main.py:85-89 | for a decoder that rejects `""` and `"}"`, a success decoded a run of the reply from its first `{` to its last `}`, with the `{` first |
| Extract.ClassifyWithoutBracesFails | main.py:85-89 | for such a decoder, a reply lacking `{` or lacking `}` always fails to classify |
| Journal.LogOf | main.py:139 | `memory.get(user_id, [])`: the stored list when the user is present, the empty list otherwise |
| Journal.LoggedReply | main.py:157 | the confirmation is "Logged: ", the rendered distance, " km run on ", the rendered date and "." in that order: the rendered distance and date stand between the fixed pieces "Logged: ", " km run on " and ".", and the length is theirs plus 20 |
| Journal.Step | main.py:139-165 | `KeyError` exactly when `intent` is missing, or it is `log_run` and `date` or `distance_km` is missing; on `log_run` the sender's list gains exactly one entry copied from the result, other users' lists and the key set are otherwise unchanged, the journal is saved and the reply quotes distance and date; any other intent leaves the journal unchanged and unsaved, replying "I beg your pardon?" for `analyze_progress` and the fixed apology otherwise |
| Journal.AfterLog | main.py:139-150 | one step extends each user's list by exactly the entries that message logs for that user, and never removes a key |
| Journal.ReplayWithAppendOnly | main.py:147-151 | any handler that extends a user's list by exactly what each message logs for that user leaves, after any sequence of messages, the old list followed by all of them in order |
| Journal.ReplayAppendOnly | main.py:139-151 | when each step is handed the in-memory journal the previous step produced, after any sequence of messages each user's list is the old list followed by exactly that user's logged entries in order |
| Journal.ReplayKeepsUsers | main.py:147-151 | when each step is handed the in-memory journal the previous step produced, after any sequence of messages every user present at the start is still present |
| Journal.LogRunExample | main.py:143-157 | a `log_run` result with distance 5 and date 2024-05-01 appends that entry and replies "Logged: 5 km run on 2024-05-01." |
| Store.Load | main.py:35-50 | an absent file, all-whitespace content or undecodable stripped content gives the empty journal; non-blank content that decodes loads as exactly what it decoded to |
| Store.LoadIgnoresPadding | main.py:37-42 | whitespace around the stored document does not change the loaded journal |
| Store.LoadDecoded | main.py:37-42 | a document whose stripped content decodes to a journal loads as that journal, for a decoder that rejects blank text |
| Handler.Handle | main.py:125-165 | the message is ignored if and only if it is a group message without the mention; it aborts only with the decoding error or a missing key; an unsaved reply leaves the loaded journal as it was; a saved reply appends exactly one entry to the sender's list of the loaded journal |
| Handler.HandleLogRun | main.py:130-157 | when the service's reply to the delivered (gated and stripped) text classifies to a `log_run` result with `date` and `distance_km`, the message is answered: the sender's list of the loaded journal gains exactly that entry, the journal is saved, and the reply is the confirmation for it |
| Handler.HandleOtherIntent | main.py:130-165 | when the reply to the delivered text classifies to any other intent, the message is answered with "I beg your pardon?" for `analyze_progress` and the fixed apology otherwise, and the loaded journal is neither changed nor saved |
| Handler.HandleAborts | main.py:89-147 | a delivered message whose service reply fails to decode aborts with the decoding error; a result with no `intent` aborts with `KeyError('intent')`; a `log_run` result with no `date` aborts with `KeyError('date')`, and one with `date` but no `distance_km` with `KeyError('distance_km')`; none of them is answered |
| Handler.HandleWithoutBracesAborts | main.py:138-143 | a delivered message whose service reply lacks `{` or `}` aborts with the decoding error before the journal is touched |
| Handler.HandleAppendOnly | main.py:138-151 | after a reply, every user's list starts with their loaded list, only the sender's can grow, and by at most one entry |

## Left out

- The OpenAI request and its prompt (main.py:60-83): a network call to an opaque model. The service is a parameter from text to reply text.
- `datetime.now()` (main.py:60): wall-clock input. It is folded into the service parameter.
- `json.loads` and `json.dump` internals and the file open, read and write (main.py:37, 42, 54-55): foreign library I/O. Decoding is an arbitrary partial function and saving is the `saved` flag. No serialise/decode round trip is claimed.
- Read errors other than a missing file, such as permissions or a bad encoding: these propagate in Python; the model only sees `None` or the file's text.
- Stored documents that are not a map from user id to a list of entries: `Memory` cannot represent them, and the program's own writes never produce them. Python raises at `.get` when the top level is not a dict. A dict holding other values, such as `{"V": 5}` or `{"U": [1]}`, loads without error and keeps those values. On `log_run` the sender's value is appended to if it has an `append`, and Python raises otherwise (main.py:139, 149-151).
- Python's `str()` of floats, arrays and objects: `Values.Opaque` carries that text as given rather than computing it.
- A `save_memory` I/O failure after the journal was updated: the model's outcome is the journal to be written.
- The Telegram command handlers, the error hook and `main()` with its polling lifecycle (main.py:97-106, 168-210): transport plumbing.
- The environment-variable checks at import (main.py:13-24): process bootstrap.
- The lost update between concurrently running handlers: a concurrency hazard. `Journal.Replay` models strictly one-after-another handling only.
- `print` logging: it has no effect on the outcome.
- Validation of `distance_km` and `date`: the code performs none, so they are opaque values copied verbatim.
- `str.replace` with a non-empty replacement, or an empty pattern with a non-empty replacement: the bot only removes its own non-empty handle.
- Journal.ReplayAppendOnly: speaks of the in-memory journal passed from step to step. `handle_message` reloads the file for every message (main.py:138) and writes it only after `log_run` (main.py:151), so this describes the program only if every saved journal loads back unchanged (`Load(Some(dump(m))) == m`); that serialise/decode round trip is an assumption, not proved here. The same holds for `Journal.ReplayKeepsUsers`.
- Store.Load: the decoder's `None` stands for `json.JSONDecodeError` only, the one error `load_memory` catches (main.py:46). Other `json.loads` failures, such as `RecursionError` on deeply nested content or `ValueError` on an integer literal past CPython's digit limit, propagate in Python and abort the message before the service is called; they are not modelled.
- Handler.Handle: states the appended entry exists rather than naming it. `Handler.HandleLogRun` names it, with the fields copied from the classified reply to the delivered text.
