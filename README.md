# Telnet-to-chat bridge: line filter and connection state machine

This project models the core of a small bot, in Dafny. The bot logs in to a
telnet server and posts the server's output to a chat channel. It also writes
the channel's messages back to the server. The core has two parts, each in
its own module.

- `LineFilter` (`line_filter.dfy`) is `remove_ignored_user_lines`. It is a
  pure function over text. Every line that starts with `<name> says:`, for a
  name on the ignored list, is blanked: its text goes, its newline stays.
  The result is then stripped of leading and trailing whitespace. The
  regular expression is modelled on lines:
  - the text is split at `'\n'`, as `^` and `$` do under `re.MULTILINE`;
  - a line matches when one alternative followed by `" says:"` is a prefix
    of it;
  - `.*` runs to the end of the line, so a trailing `'\r'` is blanked with
    the line.

  `strip()` removes the characters for which Python's `str.isspace()` holds.
- `Bridge` (`bridge.dfy`) is the class `TelnetDiscordBridge`. Its fields are:
  - the `connected` flag;
  - an optional telnet writer, kept as the log of the text written to it
    and a closed flag;
  - an optional channel;
  - the listener task.

  The network is replaced by parameters, one per point where the source
  awaits a call that may raise:
  - `Login` says which step of `connect` raised, if any;
  - `Teardown` says which step of `disconnect` raised, if any;
  - an `Outcome` says whether a `drain()` raised;
  - the listener is given the results of its successive reads.

  `Posted` is what the listener loop posts, as a function of those results.
  `Message` is the text it posts for each one.

A `ghost predicate Valid()` holds after every method:
- the writer and the channel are set together;
- a connected bridge has an open writer and a listener task;
- a running listener belongs to a connected bridge.

Behaviour of the code worth knowing:
- A clean `disconnect` closes the writer but keeps the writer and the
  channel in their fields (main.py:84-87).
- When a step of `disconnect` raises, the result is `(False, "Error
  disconnecting: …")` and the bridge stays connected (main.py:88-89). The
  listener task has already been cancelled at that point, so nothing more
  is posted (`FailedDisconnect`).
- `connect` reports success only when the whole login ran. A drain that
  raises during the login gives `(False, "Failed to connect: …")`. The new
  writer and the channel stay set, and `connected` stays false
  (main.py:55-69, `FailedLogin`).
- The listener wraps each chunk first and filters the wrapped text second
  (main.py:110-111). The envelope lines have no space, so they never match
  and the strip has nothing to remove (`LineFilter.FilterWrapped`). Blanked
  lines leave their newlines behind. The chunk `"bob says: spam\nsystem:
  alert\n"` with `bob` ignored is posted as ``"```ansi\n\nsystem:
  alert\n\n```"`` (`Bridge.SpamMessage`).
- The filter is not idempotent. Stripping can bring an ignored line to the
  start of the text (`LineFilter.StripCanExposeIgnoredLine`,
  `LineFilter.ExposedLineIsBlanked`). Blanking alone is idempotent
  (`LineFilter.BlankedIdempotent`). Filtering output with no ignored line
  left returns it unchanged (`LineFilter.FilterOfCleanOutput`).
- After a read error the listener reports once and stops, and the bridge
  stays connected (`ListenerFault`).

## Model

| member | source | states |
|---|---|---|
| `LineFilter.IsSpace` | main.py:33 | the characters `str.strip()` removes, the 29 for which `str.isspace()` holds; what the strip does with them is stated by the two lemmas below |
| `LineFilter.StripLeftRemovesSpace` | main.py:33 | the left strip removes a prefix made only of whitespace; what is left is empty or starts with a non-whitespace character |
| `LineFilter.StripRightRemovesSpace` | main.py:33 | the right strip removes a suffix made only of whitespace; what is left is empty or ends with a non-whitespace character |
| `LineFilter.Strip` | main.py:33 | the stripped text has no leading and no trailing whitespace |
| `LineFilter.StripIsMiddle` | main.py:33 | any split of the text into whitespace, a trimmed middle and whitespace has that middle as its strip, so the strip is determined uniquely |
| `LineFilter.StripOfTrimmed` | main.py:33 | a text without surrounding whitespace is its own strip |
| `LineFilter.StripIdempotent` | main.py:33 | stripping twice is stripping once |
| `LineFilter.Split` | main.py:31 | a text has at least one line, and no line contains `'\n'` |
| `LineFilter.JoinSplit` | main.py:31 | gluing the lines back with `'\n'` gives the original text |
| `LineFilter.SplitJoin` | main.py:31 | splitting lines that were glued with `'\n'` gives the same lines, when none of them contains `'\n'` |
| `LineFilter.SplitAtNewline` | main.py:31 | a `'\n'` between two texts separates their lines |
| `LineFilter.LineCount` | main.py:31 | the number of lines is the number of `'\n'` plus one |
| `LineFilter.Alternatives` | main.py:31 | the alternation built from the ignored names matches a line exactly when some ignored name followed by `" says:"` is a prefix of it; with no ignored names, `(?:)` matches exactly the lines starting with `" says:"` |
| `LineFilter.MatchesAny` | main.py:31 | the alternation `u1\|...\|un` followed by `" says:"`, tried at the start of a line; its meaning is stated by `LineFilter.Alternatives` and `LineFilter.MatchesIff` |
| `LineFilter.Matches` | main.py:31 | a line matched by the pattern of main.py:31; stated by `LineFilter.MatchesIff` |
| `LineFilter.MatchesIff` | main.py:31 | a line matches exactly when some alternative followed by `" says:"` is a prefix of it |
| `LineFilter.MatchedLineHasSpace` | main.py:31 | a matching line contains a space, so an empty line never matches |
| `LineFilter.MatchingIsAnchoredAndCaseSensitive` | main.py:31 | with `alice` ignored, `"alice says: hi"` matches; `"xalice says: hi"`, `"  alice says: hi"` and `"Alice says: hi"` do not; `a.c` is literal and does not match `"abc says: hi"` |
| `LineFilter.EmptyIgnoreListMatchesEmptyName` | main.py:31 | with no ignored names, exactly the lines starting with `" says:"` match |
| `LineFilter.BlankLines` | main.py:31-33 | blanking keeps the number of lines; line k becomes empty if it matches and stays exactly as it was otherwise |
| `LineFilter.Blanked` | main.py:33 | the text after `re.sub`, before the strip: its lines are the input's lines, in order, with each matching line made empty |
| `LineFilter.BlankedLines` | main.py:31-33 | the substituted text has as many lines as the input; its line k is empty if input line k matches and equals input line k otherwise |
| `LineFilter.BlankedKeepsNewlines` | main.py:31-33 | the substitution keeps every `'\n'` of the input |
| `LineFilter.BlankedHasNoIgnoredLine` | main.py:31-33 | no line of the substituted text matches |
| `LineFilter.BlankedIdempotent` | main.py:31-33 | substituting a second time changes nothing |
| `LineFilter.RemoveIgnoredUserLines` | main.py:26-33 | the filter's result has no leading and no trailing whitespace |
| `LineFilter.FilterWithoutMatches` | main.py:26-33 | when no line of the input matches, the filter only strips it |
| `LineFilter.FilterOfCleanOutput` | main.py:26-33 | filtering a result that has no matching line left returns it unchanged |
| `LineFilter.FilterSingleLine` | main.py:26-33 | a text of one line filters to nothing if the line matches, and to its strip otherwise |
| `LineFilter.FilterIndentedLine` | main.py:26-33 | a kept line behind one space loses only that space |
| `LineFilter.StripCanExposeIgnoredLine` | main.py:26-33 | with `alice` ignored, `" alice says: hi"` does not match and filters to `"alice says: hi"` |
| `LineFilter.ExposedLineIsBlanked` | main.py:26-33 | a second filter turns `"alice says: hi"` into the empty text, so the filter is not idempotent |
| `LineFilter.FilterKeepsMiddleLine` | main.py:26-33 | three lines, with the outer two matching and the middle one kept and trimmed, filter to the middle line |
| `LineFilter.WorkedExample` | main.py:26-33 | with `alice` and `bob` ignored, `"alice says: hi\ncarol says: hey\nbob says: yo\n"` filters to `"carol says: hey"` |
| `LineFilter.BlankedEnclosed` | main.py:31 | a line before and a line after a text, neither with a space, survive the substitution, and the text between them is substituted as on its own |
| `LineFilter.EnclosedHasNoIgnoredLine` | main.py:31 | after that substitution no line of the whole text matches |
| `LineFilter.Wrap` | main.py:110 | the envelope adds exactly one line, `` ```ansi ``, before the chunk's lines and one line, `` ``` ``, after them |
| `LineFilter.FilterWrapped` | main.py:110-111 | filtering a wrapped chunk gives the envelope around the chunk with its matching lines blanked; the strip removes nothing |
| `Bridge.LineIsOneLine` | main.py:99 | a line without `'\n'` reaches the server as exactly one line, terminated by `"\r\n"` |
| `Bridge.ListenerError` | main.py:116 | the report posted when a read raises: `"Telnet listener error: "` followed by the error text; its use is stated by `Bridge.PostedMessages` |
| `Bridge.Forwarded` | main.py:110-111 | the message posted for a chunk is the envelope around the chunk with its ignored lines blanked |
| `Bridge.Message` | main.py:109-116 | every read result the listener posts for gives a non-empty message; only a cancellation gives none |
| `Bridge.Posted` | main.py:107-116 | the listener posts at most one message per read and nothing without a channel; it posts only for non-empty chunks and read errors taken from its reads |
| `Bridge.PostedMessages` | main.py:109-116 | every posted message is the envelope around a non-empty chunk with its ignored lines blanked, or `"Telnet listener error: "` and the error text |
| `Bridge.ForwardedHasNoIgnoredLine` | main.py:110-111 | no line of a posted chunk is an ignored user's line |
| `Bridge.PostedEveryChunk` | main.py:107-111 | with a channel and only non-empty chunks, every chunk is posted, in order, and none is dropped |
| `Bridge.PostedAppend` | main.py:107-111 | after reads that return chunks, later reads are posted as if those chunks were not there |
| `Bridge.PostedStopsAtCancel` | main.py:112-113 | after a cancellation nothing more is posted, whatever the link would still deliver |
| `Bridge.PostedStopsAtError` | main.py:114-116 | a read error is reported once, if there is a channel, and nothing is posted after it |
| `Bridge.SpamMessage` | main.py:110-111 | with `bob` ignored, the chunk `"bob says: spam\nsystem: alert\n"` is posted as ``"```ansi\n\nsystem: alert\n\n```"`` |
| `Bridge.TelnetDiscordBridge.constructor` | main.py:40-46 | a new bridge is disconnected, with no writer, no channel and no listener |
| `Bridge.TelnetDiscordBridge.SendLine` | main.py:98-100 | the line and CR LF are appended to what the writer has written before the drain, and nothing else changes; the call raises when the drain raises |
| `Bridge.TelnetDiscordBridge.Connect` | main.py:48-69 | when already connected: `(False, "Already connected.")` and no change; when the open raises: `"Failed to connect: "` and the error, and no change; otherwise the channel is stored and a new writer receives the user line, then the password line (only the user line if its drain raises); the bridge is connected, with one more listener started, exactly when the login ran to its end; `Valid` is kept |
| `Bridge.TelnetDiscordBridge.Disconnect` | main.py:71-89 | when not connected: `(False, "Not connected.")` and no change; otherwise the listener is cancelled; a clean teardown closes the writer, disconnects and keeps the writer and the channel; a step that raises gives `"Error disconnecting: "` and the error, and leaves the bridge connected with the writer as it was; `Valid` is kept |
| `Bridge.TelnetDiscordBridge.Send` | main.py:91-96 | while connected, the message and CR LF are appended to the writer's log; otherwise nothing changes and nothing is raised |
| `Bridge.TelnetDiscordBridge.Listen` | main.py:102-116 | a running listener task returns one message per posted read result, in order, each the `Message` for that result; a bridge that is not connected, or whose listener task was cancelled, posts nothing |
| `Bridge.ConnectTwice` | main.py:52-53 | after a successful connect, a second connect returns `(False, "Already connected.")` and the writer still holds just the two login lines |
| `Bridge.RelaySpam` | main.py:102-111 | after connecting with `bob` ignored, a read of `"bob says: spam\nsystem: alert\n"` makes the listener post exactly ``"```ansi\n\nsystem: alert\n\n```"`` |
| `Bridge.DisconnectThenSend` | main.py:71-96 | after a clean disconnect the listener posts nothing, send writes nothing and raises nothing, a second disconnect is refused, and the writer is closed holding the two login lines |
| `Bridge.FailedDisconnect` | main.py:77-89 | when the teardown raises, disconnect fails with the error text; the listener task is cancelled and posts nothing more, yet a new connect is refused and send still writes to the old writer |
| `Bridge.ListenerFault` | main.py:114-116 | a read error is posted once as `"Telnet listener error: "` and the error text, and the bridge stays connected, so send still writes |
| `Bridge.FailedLogin` | main.py:54-69 | a login whose password drain raises fails with the error text and leaves the channel and the half-used writer set; send writes nothing; a later connect succeeds on a new writer holding just the two login lines |

## Left out

- Loading `config.toml` and the module-level constants (main.py:10-24) is file I/O. Host, port, user name, password and the ignored list are the fields of a `Config` value passed to the constructor.
- `telnetlib3.open_connection`, `write`, `drain`, `close` and `reader.read(1024)` are network I/O. Their outcomes are parameters (`Login`, `Teardown`, `Outcome`, the sequence of `Read` results). Host and port are carried in `Config` but not used; the encoding flags of main.py:56 are not modelled. A `write()` that raises before its drain is not separated from a drain that raises.
- The `reader` field is not a field of the model. The listener is given the results of its reads directly.
- The `asyncio.sleep` delays in `connect` (main.py:59, 61, 63) are timing, and have no effect on the state.
- `asyncio.create_task` and the interleaving of the listener with `send`, `connect` and `disconnect` are concurrency. The listener runs as one call of `Listen` on the current state. Its `while self.connected` test therefore reads a flag that does not change during the call. A cancellation that arrives during `channel.send` or during a sleep in `connect` is not modelled.
- The list of reads is finite. A real reader at end of stream keeps returning the empty string, which the loop skips forever. The model stops when the reads run out.
- The `ListenTask` state does not record that a listener ended on its own after a read error. It goes from `Running` to `Cancelled` only through `disconnect`.
- `channel.send` is assumed to return. A failure while the listener reports an error is the `ListenerRaises` outcome of `disconnect`. Its later effect is not modelled: each later `disconnect` re-raises that failure.
- Exception texts are the `error` strings of the parameters. The model does not compute what `str(e)` would be.
- `connect_time` (main.py:46, 153) is set only by the command layer and is never read by the bridge.
- The chat client, the command tree, `on_ready`, `on_message`, `connect_command` and `disconnect_command` (main.py:119-177) are UI and event plumbing over a library that is not part of this model.
- An ignored name that contains `'\n'` would let the regular expression match across a line break. The line model never matches across lines.
- `re.escape` is taken to make every name match literally.
- Characters outside the fixed whitespace set, and the rest of Unicode, have no special meaning in the model.
- `Bridge.TelnetDiscordBridge.Disconnect`: when `close()` raises, the writer is left as it was, although the closing may have taken effect before the exception.
