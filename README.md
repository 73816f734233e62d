# Indodax Academy update bot — a Dafny model of its decision engine

The bot polls the Indodax Academy feed for its newest article and forwards it to one Telegram
chat. An article is forwarded only if its title contains one of the operator's filter keywords,
or if there are no keywords at all. The bot remembers the id of the last article it decided on,
so it normally forwards each article once. Four things make it decide an article again:

- an id whose text has surrounding white space or a carriage return does not survive the trip
  through the marker file;
- a failed send leaves the marker as it was;
- a title that is not a string, while the key set is non-empty, makes `.lower()` raise before
  the marker is written;
- `resetid` removes the marker.

It keeps two records on disk:

- `last_id.txt` holds the id of the last article it decided on.
- `filter_key.json` holds the keyword set as a JSON list. The first read creates it with
  `listing` and `token`.

Operators use two commands:

- `key` shows the destination chat and the keywords. `key <word>` adds or removes one keyword.
- `resetid` deletes the last-seen marker, so the current article is decided again, unless its
  id text is `None`: the id is missing or `null`, or is the string `None`.

The model has six modules:

- `Strings`: the Python string operations the code uses. These are `str.isspace`, `lower()`,
  `strip()`, `k in t`, `', '.join`, `split('\n')`, `str(int)` and the newline translation of a
  text-mode read. `isspace` is Python's list of white-space characters, written out.
  `lower()` is stated character by character. The newline translation is defined directly;
  lemmas state that it turns `\r\n` and a lone `\r` into `\n` and leaves text without `\r`
  alone. The others are proved against an independent description: where a substring occurs,
  what stripping removes, what joining and splitting give back, and reading back a printed
  integer.
- `Filter`: the default key set, the normalisation `key` applies to a word, toggling a word, and
  the keyword test of the poll.
- `Feed`: the article record as the poll reads it. The id, title and link are JSON values:
  `null`, a string or an integer. A missing key is modelled too. Python's `str()` of these values
  is modelled as well.
- `Messages`: the notification text and the command replies.
- `Engine`: the persisted state as a value (`Store`) and one function per operation: `Poll`,
  `KeyStep` and `ResetStep`. Lemmas state what these functions guarantee, alone and in sequence:
  when a second poll of the same article is a no-op, the filter's meaning, the error paths,
  toggling twice, and re-evaluation after a reset.
- `Bot`: a class holding the two files, the outbox and the command replies. Each handler is a
  method that updates these fields step by step, in the source's order. `CheckNewArticle`,
  `Key` and `ResetId` are proved to leave exactly the state that `Engine.Poll`, `Engine.KeyStep`
  and `Engine.ResetStep` describe. The file helpers `GetLastId`, `SetLastId`, `GetFilterKeys`
  and `SetFilterKeys`, and the reply helper `ShowFilters`, are specified directly.

Outside effects are parameters:

- The fetched article is a `Fetch` value. A failed fetch is `FetchFailed`.
- Whether `send_message` returns or raises is `sendOk`.
- Whether `reply_text` returns or raises is `replyOk`.
- The timestamp from `get_wib_time` is `now`.
- `CHAT_ID` is the constant `chatId`.

Consequences of the code that the model makes explicit:

- A failed `send_message` skips `set_last_id` (main.py:92-98), so the article is decided again on
  the next poll (`Engine.FailedDecisionKeepsMarker`).
- Only words added through `key` are lower-cased (main.py:46). Keys already in the file are
  compared as they are, against the lower-cased title (main.py:89), so a key with a capital
  letter never matches (`Filter.UpperKeyNeverMatches`).
- `key <word>` replies before it writes the set (main.py:49-53), so a failed reply loses the
  toggle (`Engine.KeyWithoutToggle`).
- Every poll that fetched an article reads the key set (main.py:86), including polls of an
  article already seen, so the first such poll writes the default set (`Engine.PollPersistsKeys`).
- The stored id is `str(article_id)` (main.py:27). It is read back through a text-mode read and
  stripped (main.py:20-21), and an absent marker compares as the text `None` (main.py:88). So an
  id with surrounding white space or a carriage return is never recognised as seen
  (`Engine.MarkedIdSeenIff`). An article whose id is missing or `null` counts as seen while the
  marker is absent (`Engine.ResetThenPoll`).
- `.lower()` is called on the title only when the key set is non-empty (main.py:89). When the
  title is not a string, the resulting exception leaves the marker untouched
  (`Outcome.TitleError`, `Engine.FailedDecisionKeepsMarker`), and every later poll meets the same
  exception until the key set is emptied or the feed moves on (`Engine.TitleErrorRepeats`).

## Model

| member | source | states |
|---|---|---|
| Strings.Lower | main.py:89 | `title.lower()` keeps the length, turns each ASCII capital into its small letter and leaves every other character as it is |
| Strings.StripShape | main.py:21 | `strip()` keeps exactly the part of its input between the leading and the trailing white space: everything before and after it is white space, and it neither starts nor ends with white space |
| Strings.StripIdempotent | main.py:46 | stripping a stripped string changes nothing |
| Strings.ContainsIff | main.py:89 | `k in t` holds exactly when `k` occurs in `t` at some index, in both directions |
| Strings.JoinMentions | main.py:56 | every element of the list occurs in `', '.join(list)` |
| Strings.ParseShowInt | main.py:27 | the decimal text `str` writes for an integer id reads back as that integer |
| Strings.ShowIntInjective | main.py:88 | two integer ids print as the same text exactly when they are equal |
| Strings.ShowIntStripped | main.py:21 | the text of an integer id has no surrounding white space, so stripping it changes nothing |
| Strings.ShowIntReadsBack | main.py:20-27 | the text of an integer id, read back in text mode and stripped, is that text again |
| Strings.UniversalReturn | main.py:20-21 | a text-mode read turns `\r\n` into one `\n`, and a `\r` not followed by `\n` into `\n`, leaving the text before it alone |
| Strings.UniversalFixed | main.py:20-21 | a text-mode read returns content without a carriage return as it was written |
| Feed.IdTextOfNumbers | main.py:88 | an integer id and the string of its digits compare equal; two distinct integer ids never do |
| Feed.IntIdIsNotNone | main.py:88 | an integer id never equals the text `None` of an absent marker |
| Feed.PyStr | main.py:88 | `str()` of a string is itself; of an integer, a text that parses back to it; the text is `None` exactly for `null` and for the string `None` |
| Filter.NormaliseShape | main.py:46 | `args[0].strip().lower()` has no capital letter and no surrounding white space |
| Filter.NormaliseIdempotent | main.py:46 | normalising a normalised word changes nothing |
| Filter.Toggle | main.py:47-51 | after a toggle the word is present exactly when it was absent before, and every other key is unchanged |
| Filter.ToggleTwice | main.py:47-51 | toggling the same word twice restores the set |
| Filter.DefaultKeysNormalised | main.py:34 | the default keys are lower case and have no surrounding white space |
| Filter.ToggleKeepsNormalised | main.py:46-51 | toggling a normalised word keeps a set of normalised keys normalised |
| Filter.PassesIff | main.py:89 | a new article passes the filter exactly when the key set is empty or some key occurs in the lower-cased title |
| Filter.UpperKeyNeverMatches | main.py:89 | a key containing a capital letter never occurs in the lower-cased title |
| Filter.EmptyKeyPassesAll | main.py:89 | an empty-string key lets every title through |
| Messages.ArticleMessageLines | main.py:80-84 | when title, link and time contain no line feed, the notification splits into exactly: header, blank line, title, link, `Tanggal Update:` line |
| Messages.ArticleMessageFields | main.py:80-84 | the third line of the notification is the title; when the title holds no line feed, the fourth is the link |
| Engine.ReadLastId | main.py:18-23 | the marker reads as absent exactly when the file does not exist |
| Engine.MessageFallbacks | main.py:77-84 | a missing `post_title` appears as `Judul tidak ditemukan` on the title line of the sent notification, and a missing `permalink` as `Link tidak ditemukan` on the link line |
| Engine.Decide | main.py:86-96 | the poll finds the article seen exactly when `str(id)` equals `str(last_id)`; a title error needs a non-empty key set and a non-string title; a send is attempted only when the set is empty or the title passes the filter; filtered means a non-empty set and no match; the outcome is `Sent` only when delivery succeeded |
| Engine.Poll | main.py:69-98 | the outbox only grows, by at most one message per poll; the marker changes only to `str(id)` of a fetched article; a fetched poll always leaves a key file, and an existing key file is never rewritten |
| Engine.FetchFailureChangesNothing | main.py:70-73 | a failed fetch or decode changes no state and sends nothing |
| Engine.SeenArticleIsNoop | main.py:86-96 | if `str(id)` equals `str(last_id)`, with `None` for an absent marker, nothing is sent and the marker is unchanged; only the key-set default may be written |
| Engine.NewArticleDecision | main.py:88-93 | for a new article with a string title: it is sent exactly when delivery succeeds and the key set is empty or some key occurs in the lowered title; it is filtered exactly when the set is non-empty and no key occurs |
| Engine.EmptyFilterSendsAll | main.py:89-92 | with an empty key set, every new article is sent, whatever its title |
| Engine.NewArticleMarked | main.py:88-94 | a sent or filtered article is stored as `str(id)`; only a sent one adds its notification to the outbox |
| Engine.FailedDecisionKeepsMarker | main.py:89-98 | when delivery or `.lower()` raises, the marker and outbox are unchanged, and the next poll takes the same decision |
| Engine.TitleErrorRepeats | main.py:89-94 | when `.lower()` raised on a non-string title, the next poll of the same article raises again, whether or not a send would have succeeded |
| Engine.SecondPollIsNoop | main.py:88-94 | after a poll that sent or filtered an article whose id text has no surrounding white space and no carriage return, polling the same article again changes nothing |
| Engine.IntIdPolledOnce | main.py:88-94 | for integer ids, a second poll of the same article after it was sent or filtered is always a no-op |
| Engine.PaddedIdNeverSeen | main.py:18-27 | an id text with surrounding white space never matches the marker read back, so that article is decided again on every poll |
| Engine.ReturnIdNeverSeen | main.py:18-27 | an id text holding a carriage return is read back with a line feed in its place, so that article is decided again on every poll |
| Engine.MarkedIdSeenIff | main.py:88-94 | after an article was sent or filtered, the next poll finds it seen exactly when its id text has no surrounding white space and no carriage return |
| Engine.ReadBackIff | main.py:18-27 | a marker text reads back unchanged exactly when it has no surrounding white space and no carriage return |
| Engine.LastIdRoundTrip | main.py:18-27 | writing an id and reading it back gives `str(id)` with carriage returns turned into line feeds, stripped; for an integer id, this is its decimal text, which parses back to the integer |
| Engine.KeysReadInitialises | main.py:29-36 | reading a missing key file gives exactly `{"listing","token"}`; reading an existing file gives its set (the round trip through the JSON list is `Bot.Bot.SetFilterKeys`) |
| Engine.PollPersistsKeys | main.py:86 | every poll that fetched an article leaves the key file holding the set it read |
| Engine.KeyStepWithWord | main.py:44-53 | `key <word>` stores the toggled set if the reply went out, and otherwise the set as read |
| Engine.KeyStep | main.py:44-53 | `key` leaves the marker and the outbox alone and always leaves a key file; the only key whose membership can change is the normalised word, and only when a word was given and the reply went out, in which case its membership flips |
| Engine.KeyToggleTwice | main.py:44-53 | running `key <w>` twice restores the key set, and no other key changes in between |
| Engine.KeyWithoutToggle | main.py:44-67 | `key` without a word, or with a failed reply, changes nothing except writing the default key set when it was missing |
| Engine.KeyKeepsNormalised | main.py:44-53 | if every stored key is normalised, it stays so after `key` |
| Engine.ResetThenPoll | main.py:100-103 | after `resetid`, the next poll decides the latest article afresh exactly when its id text is not `None` |
| Engine.ResetStep | main.py:100-105 | after `resetid` the marker reads as absent and compares as `None`; the key file and the outbox are unchanged |
| Engine.ResetWithoutMarkerIsNoop | main.py:100-105 | without a marker, `resetid` changes nothing, so a second reset in a row is a no-op |
| Engine.ListingKeySends | main.py:86-94 | marker `100`, key `listing`, article 101 titled "New Listing Announced": the article is sent, and the marker becomes `101` |
| Engine.AirdropKeyFilters | main.py:86-94 | the same article with the key `airdrop` is not sent, but the marker still becomes `101` |
| Engine.SeenScenario | main.py:88-96 | marker `100` and an article whose id is the string `100`: nothing is sent and nothing changes |
| Bot.ListOf | main.py:40 | `list(keys)` lists every key exactly once, in an order left open |
| Bot.ActiveKeysListed | main.py:55-59 | the reply to `key` without a word names every active key |
| Bot.Bot.GetLastId | main.py:18-23 | returns `None` exactly when the file is missing; otherwise returns the content as a text-mode read gives it, stripped, which has no surrounding white space and no carriage return |
| Bot.Bot.SetLastId | main.py:25-27 | the marker file then holds `str(article_id)` |
| Bot.Bot.SetFilterKeys | main.py:38-40 | the key file then holds a list of the given keys, each exactly once, and reads back as the same set |
| Bot.Bot.GetFilterKeys | main.py:29-36 | returns the stored set and leaves an existing file untouched; a missing file becomes the default set, which is returned |
| Bot.Bot.CheckNewArticle | main.py:69-98 | the outcome and the new marker, key file and outbox are exactly those of `Engine.Poll`; an existing key file is not rewritten; the replies are unchanged |
| Bot.Bot.Key | main.py:42-67 | the new key file is that of `Engine.KeyStep`, and an existing file is not rewritten without a toggle; a toggle replies with removal or addition of the normalised word; without a word it shows the chat id and the active keys, or says the filter is empty |
| Bot.Bot.ToggleWord | main.py:45-53 | toggles the word, replies, and only then writes the set; a failed reply leaves the file as read |
| Bot.Bot.ShowFilters | main.py:54-67 | replies with the chat id and a comma-joined listing of the keys, or with the empty-filter text |
| Bot.Bot.ResetId | main.py:100-105 | removes the marker if present and says so; otherwise it replies `Gagal reset:` with the missing-file error and changes nothing |

## Left out

- Fetching the feed (`requests.get`, `.json()`, `data['datas'][0]`, main.py:71-73) is not modelled. Its result is the `Fetch` parameter, and any exception there is `FetchFailed`.
- The Telegram transport is not modelled: `send_message`, `reply_text`, `ApplicationBuilder`, `CommandHandler` and `run_polling` (main.py:92, main.py:107-116). A send appends to `outbox`, a reply appends to `replies`, and their success is a parameter.
- Bot.Bot.ResetId: always assumes the reply goes out. A failing first reply in `resetid` would lead into the `except` branch with the transport's error text, which the model cannot know. The marker is removed before either reply, so the state is the same.
- The job queue's cadence (main.py:113) and interleaving of commands with polls are not modelled. They are timing and concurrency, not decision logic.
- `get_wib_time` (main.py:15-16) is not modelled, because it reads the clock and the time-zone database. Its text is the `now` parameter.
- `print` logging (main.py:90, 93, 96, 98, 115) is not modelled.
- Environment configuration (main.py:9-10) is not modelled. `CHAT_ID` is the constant `chatId`, and `TELEGRAM_TOKEN` is not used by the core.
- File-system failures other than a missing file are not modelled. This covers an unreadable `last_id.txt`, which `get_last_id`'s bare `except` would also read as `None`. It also covers a `filter_key.json` that is not a JSON list of strings, and failing writes.
- The text-mode read is modelled only in its newline translation. Decoding bytes in the locale's encoding is not modelled, and neither are writes on a platform whose line separator is not `\n`. The marker is stored as characters.
- JSON values other than `null`, strings and integers (floats, booleans, lists, objects) are not modelled for the article's id, title and link.
- Strings.Lower: lower-cases only the ASCII letters `A`-`Z`. Python's `str.lower` also lower-cases non-ASCII letters, and that Unicode case mapping is not modelled.
- The order of `list(keys)` and `', '.join(keys)` is Python's set iteration order, which is unspecified. `Bot.ListOf` and the reply of `key` leave it open.
