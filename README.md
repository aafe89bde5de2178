# Number-availability bot: a Dafny model

The bot watches an SMS-activation marketplace for phone numbers. It fetches
the inventory mapping (offer id → `{country, price, count}`) and reports the
first offer for one target country at or below a price ceiling with a count
other than 0. It also reports the account balance. Everything it reports goes
to one administrator over Telegram. A polling loop repeats the check every
600 s, and waits 1800 s more after a hit. The commands `/start`, `/stop`,
`/check` and `/balance` control it.

The repository holds four versions of the checker, and this project models
each of them:

| file | module | target | errors |
|---|---|---|---|
| number_checker.py | `NumberChecker` | 137, price ≤ 9 | five handlers, a text fallback when the body is not served as JSON |
| number_checker_aiohttp.py | `AiohttpChecker` | 137, price ≤ 12 | five handlers, no text fallback |
| checker_solid.py | `SolidChecker` | 137, price ≤ 12 | only `RequestException` and `ValueError` are caught |
| checker.py | `LegacyChecker` | 22, price ≤ 4 | one catch-all, no status check |

The model also covers two controllers. The `BotHandler` class (bot_handler.py,
copied verbatim in checker_solid.py:91-164) keeps a `stop` flag and one task
handle. checker.py's module-level controller keeps a global `STOP` and spawns
a loop on every `/start`.

Shared parts:
- `Http` replaces the HTTP clients with the outcome of a request:
  - a response with a status flag and a body
  - a connection error, a timeout, or another client error
- `Outbox` holds the notifications and the administrator's `Chat`, to which
  `send_message` appends.
- `Offers` holds the first-match scan. `ScanOffers` is proved equal to the
  reference definition `FirstMatch`.
- `Balance` follows Python's `str.split` and `[-1]`.
- `Schedule` holds the 600/1800 s timing and the log of checks.

A call of `get_numbers` is described by a `Report`: how it ended (returned a
boolean, or raised) and the messages it sent, in order. Each `GetNumbers`
method is proved to append exactly the `Report` of its input to the chat.
The lemmas then state, for every input, what that `Report` is.

Where the docstrings and the code disagree, the model follows the code:
- Every checker's docstring says country 22 with price ≤ 4. The code uses
  137/9, 137/12 and 137/12; only checker.py uses 22/4.
- A check returns true exactly when the FIRST value that the filter stops on
  qualifies. A value that makes the filter raise can come first: a value that
  is not an object, or a target-country value without a price. In that case
  the call reports an error even if a qualifying value follows. "True if and
  only if some value qualifies" holds only for inventories where no value
  raises (`NumberChecker.FoundIffSomeOfferQualifies`).
- checker_solid.py lets every exception other than `RequestException` and
  `ValueError` escape `get_numbers`. That includes the ones from a malformed
  inventory. Such an exception ends the polling loop.
- In checker.py, `/start` always spawns another loop, and `/stop` only pauses
  them all.
- In `BotHandler`, a loop spawned by `on_startup` keeps no handle, so `/stop`
  cannot cancel it. It has entered `check_loop` before any command arrives;
  after `/stop` its flag ends it at its next wake, unless a `/start` comes
  first: the new loop clears the flag, and both loops poll from then on.
  main.py never registers `on_startup`, so this only applies where it is
  wired in.

## Model

| member | source | states |
|---|---|---|
| `Offers.ScanOffers` | number_checker.py:43-52 | The loop over `json_data.values()` ends exactly where the reference scan ends: the first value that qualifies (with its count and price), the first value the filter cannot test (an exception), or after the last value; a document that is not a mapping raises. |
| `Offers.HitIsFirstMatch` | number_checker.py:43-52 | The scan hits if and only if some position qualifies after every earlier value was passed over without an exception, and then it reports that value's count and price. |
| `Offers.CrashIsFirstRaise` | number_checker.py:44 | The scan raises if and only if some value makes the filter raise (it is not an object, or it is for the target country with no price) after every earlier value was passed over. |
| `Offers.WellFormedHitIffQualifying` | number_checker.py:43-52 | When no value makes the filter raise, the scan never raises, hits if and only if some value qualifies, and reports the earliest qualifying value. |
| `Offers.SoldOutIsSkipped` | number_checker.py:45-46 | A target-country value within the ceiling but with count 0 is passed over and the scan continues. |
| `Offers.OtherCountryIsSkipped` | number_checker.py:44 | A value for another country is passed over even when its price is missing, because `and` short-circuits before the price is compared. |
| `Balance.Find` | number_checker.py:84 | A found occurrence of the separator lies wholly inside the text. |
| `Balance.FindIsLeftmost` | number_checker.py:84 | What `Find` returns is an occurrence of the separator with none earlier, and None means the separator occurs nowhere. |
| `Balance.Split` | number_checker.py:84 | `str.split` always yields at least one piece, so `[-1]` never fails. |
| `Balance.JoinSplit` | number_checker.py:84 | Joining the pieces of a split with the separator gives back the original text. |
| `Balance.SplitPiecesAreClean` | number_checker.py:84 | No piece of a split contains the separator. |
| `Balance.LastPieceShape` | number_checker.py:84 | The last piece is a suffix of the text without the separator in it: the whole text when the separator is absent, otherwise the text right after an occurrence of it. |
| `Balance.MarkersDoNotOverlap` | number_checker.py:84 | Two occurrences of "ACCESS_BALANCE:" never overlap. |
| `Balance.BalanceIsAfterLastMarker` | number_checker.py:83-86 | The reported balance is the text after the LAST "ACCESS_BALANCE:", or the whole reply when there is none. |
| `Balance.BalanceOfTypicalReply` | number_checker.py:83-86 | The reply "ACCESS_BALANCE:42.50" is announced as "Баланс: 42.50". |
| `Outbox.Chat.Send` | sms_service.py:8-12 | `send_message` delivers one message to the administrator, after all earlier ones. |
| `NumberChecker.GetNumbers` | number_checker.py:18-71 | One check sends exactly the messages of its `Report`, in order, and returns its result. |
| `NumberChecker.GetBalance` | number_checker.py:73-98 | One balance lookup sends exactly one message, chosen by the reply. |
| `NumberChecker.FoundIffFirstMatch` | number_checker.py:26-52 | `get_numbers` returns true if and only if the response is accepted, decodes to a mapping (directly or through the text fallback), and has a first match for 137 / 9. |
| `NumberChecker.FoundIffSomeOfferQualifies` | number_checker.py:43-52 | On an inventory where the filter never raises, the result is true if and only if some value qualifies. |
| `NumberChecker.ReportsFirstMatchOnly` | number_checker.py:44-52 | With a first match at k, exactly one message is sent, naming value k's count and price, and no fallback follows. |
| `NumberChecker.NoOfferSendsFallbackOnly` | number_checker.py:70-71 | When nothing qualifies and nothing raises, the only message is "Нет доступных номеров" and the result is false. |
| `NumberChecker.UnparseableSkipsFallback` | number_checker.py:32-41 | A body that is neither served nor parseable as JSON is reported once with its text, and "Нет доступных номеров" is not sent. |
| `NumberChecker.ErrorThenFallback` | number_checker.py:54-71 | Each caught failure (connection, timeout, rejected status, bad JSON, an exception while scanning, anything else) sends one error message, then "Нет доступных номеров", and returns false. |
| `NumberChecker.Numbers` | number_checker.py:27-71 | `get_numbers` never raises and always sends one or two messages. |
| `NumberChecker.BalanceSent` | number_checker.py:73-98 | One message per lookup, and it is a balance exactly when the reply is accepted. |
| `NumberChecker.BalanceSendsOneMessage` | number_checker.py:78-98 | `get_balance` sends exactly one message: the text after the last marker on an accepted reply, an error message otherwise. |
| `AiohttpChecker.Numbers` | number_checker_aiohttp.py:21-56 | The catch-all handler means `get_numbers` never raises, and it sends one or two messages. |
| `AiohttpChecker.GetNumbers` | number_checker_aiohttp.py:16-56 | One check sends exactly the messages of its `Report`, in order, and returns its result. |
| `AiohttpChecker.GetBalance` | number_checker_aiohttp.py:58-76 | The lookup as evidently intended (text awaited) sends exactly one message, chosen by the reply. |
| `AiohttpChecker.FoundIffFirstMatch` | number_checker_aiohttp.py:16-42 | `get_numbers` returns true if and only if the response is accepted, served as JSON, decodes to a mapping and has a first match for 137 / 12. |
| `AiohttpChecker.ReportsFirstMatchOnly` | number_checker_aiohttp.py:33-42 | With a first match at k, exactly one message is sent, naming value k, and no fallback follows. |
| `AiohttpChecker.NoOfferSendsFallbackOnly` | number_checker_aiohttp.py:55-56 | When nothing qualifies and nothing raises, the only message is "Нет доступных номеров". |
| `AiohttpChecker.ErrorThenFallback` | number_checker_aiohttp.py:43-56 | Every failure sends one error message, then "Нет доступных номеров", and returns false. |
| `AiohttpChecker.UnlabelledBodyIsRequestError` | number_checker_aiohttp.py:16-19 | A body not served as JSON is refused even when its text is a well-formed inventory: "Ошибка запроса", then the fallback. |
| `AiohttpChecker.OtherCountryPriceNotCompared` | number_checker_aiohttp.py:34 | A value for another country without a price does not interrupt the scan; the result is that of the remaining values. |
| `AiohttpChecker.BalanceSentAsWritten` | number_checker_aiohttp.py:58-76 | As written, one message per lookup, and never a balance. |
| `AiohttpChecker.BalanceSent` | number_checker_aiohttp.py:58-76 | As intended, one message per lookup, and it is a balance exactly when the reply is accepted. |
| `AiohttpChecker.BalanceAsWrittenNeverReports` | number_checker_aiohttp.py:64-76 | As written, every reply produces one error message; an accepted "ACCESS_BALANCE:42.50" produces "Неожиданная ошибка". |
| `AiohttpChecker.BalanceSendsOneMessage` | number_checker_aiohttp.py:63-76 | As intended, exactly one message: the text after the last marker on an accepted reply ("Баланс: 42.50" for "ACCESS_BALANCE:42.50"), an error message otherwise. |
| `SolidChecker.GetNumbers` | checker_solid.py:36-73 | One check sends exactly the messages of its `Report`, in order, and returns its result or raises. |
| `SolidChecker.GetBalance` | checker_solid.py:75-88 | One balance lookup sends exactly one message, chosen by the reply. |
| `SolidChecker.FoundIffFirstMatch` | checker_solid.py:52-66 | `get_numbers` returns true if and only if the response is accepted, decodes to a mapping and has a first match for 137 / 12. |
| `SolidChecker.ReportsFirstMatchOnly` | checker_solid.py:57-66 | With a first match at k, exactly one message is sent, naming value k. |
| `SolidChecker.NoOfferSendsFallbackOnly` | checker_solid.py:72-73 | When nothing qualifies and nothing raises, the only message is "Нет доступных номеров". |
| `SolidChecker.RequestErrorThenFallback` | checker_solid.py:67-73 | A connection error, a timeout, a rejected status or an undecodable body sends "Ошибка запроса", then "Нет доступных номеров", and returns false. |
| `SolidChecker.UnhandledEscapes` | checker_solid.py:44-73 | Any other client error, a document that is not a mapping, or a value the filter cannot test escapes as an exception, with nothing sent. |
| `SolidChecker.MissingPriceEscapes` | checker_solid.py:58 | A country-137 value without a price at the head of the mapping makes `get_numbers` raise. |
| `SolidChecker.Numbers` | checker_solid.py:44-73 | A call that returns has sent one or two messages; a call that raises has sent none. |
| `SolidChecker.BalanceSent` | checker_solid.py:75-88 | One message per lookup, and it is a balance exactly when the reply is accepted. |
| `SolidChecker.BalanceSendsOneMessage` | checker_solid.py:80-88 | `get_balance` never raises and sends exactly one message: the text after the last marker on an accepted reply, an error message otherwise. |
| `BotHandler.Handler.constructor` | bot_handler.py:9-18 | A new handler is not stopped, has no loop and has made no check. |
| `BotHandler.Handler.Elapse` | bot_handler.py:64-66 | Time passes while the loops sleep; only the clock changes, and the invariant is kept. |
| `BotHandler.Handler.StartCommand` | bot_handler.py:20-28 | `/start` spawns a loop only when there is no handle or its task is done, and records it in the handle; afterwards the handle names a live loop. |
| `BotHandler.Handler.StopCommand` | bot_handler.py:44-53 | `/stop` sets the flag and cancels the task the handle names, and no other task; afterwards every loop spawned by `/start` is done, so `Step` (which requires a live loop) never runs one of them again. |
| `BotHandler.StopEndsStartedLoops` | bot_handler.py:44-53 | After the cancel `/stop` performs, every loop spawned by `/start` is done and every loop spawned by `on_startup` is unchanged. |
| `BotHandler.Handler.OnStartup` | bot_handler.py:68-81 | `on_startup` spawns a loop and keeps no handle to it. |
| `BotHandler.Handler.Step` | bot_handler.py:55-66 | One turn of a loop: entering `check_loop` clears the flag; a set flag ends the loop with no check; otherwise one `get_numbers` call is logged and the loop sleeps 600 s, or 2400 s after a hit, or ends when the call raised. Every step keeps the invariant. |
| `BotHandler.Handler.Poll` | bot_handler.py:64 | One `get_numbers` call through the configured checker: its exit and the messages it sends are those of that checker's model. |
| `BotHandler.Handler.CheckCommand` | bot_handler.py:30-35 | `/check` makes one `get_numbers` call and leaves the loop state unchanged. |
| `BotHandler.Handler.BalanceCommand` | bot_handler.py:37-42 | `/balance` makes one `get_balance` call and leaves the loop state unchanged. |
| `BotHandler.StartKeeps` | bot_handler.py:27-28 | Spawning from `/start` only when the handle is free keeps at most one `/start` loop alive. |
| `BotHandler.StartupKeeps` | bot_handler.py:81 | The untracked `on_startup` loop keeps the invariant. |
| `BotHandler.CancelKeeps` | bot_handler.py:52-53 | Cancelling the tracked loop keeps the invariant. |
| `BotHandler.FinishKeeps` | bot_handler.py:63 | A loop leaving its `while` keeps the invariant. |
| `BotHandler.CheckKeeps` | bot_handler.py:63-66 | A check by a live loop whose sleep is over keeps the log spaced: every earlier check by that loop returned and was at least 600 s (2400 s after a hit) before it. |
| `BotHandler.AtMostOneStartedLoop` | bot_handler.py:27-28 | At any time at most one loop spawned by `/start` is alive. |
| `BotHandler.ChecksOfOneLoopAreSpaced` | bot_handler.py:63-66 | Two checks by the same loop are at least 600 s apart, at least 2400 s after a hit, and the earlier one returned. |
| `BotHandler.StartupThenStartStop` | bot_handler.py:20-81 | With the `on_startup` loop already polling, `/start` adds a tracked loop and `/stop` sets the flag and cancels only that one; the `on_startup` loop stays alive. |
| `BotHandler.StopEndsStartupLoopAtWake` | bot_handler.py:44-66 | The `on_startup` loop, left alive by `/stop`, sees the flag at its next wake and ends without another check. |
| `BotHandler.RestartRevivesStartupLoop` | bot_handler.py:20-81 | `/start` after `/stop`, before the `on_startup` loop wakes, spawns a loop that clears the flag; both it and the `on_startup` loop then check. |
| `BotHandler.RestartAfterStop` | bot_handler.py:20-66 | After `/stop` has cancelled the loop, `/start` spawns a new one, which clears the flag and polls again. |
| `BotHandler.StartTwiceKeepsOneLoop` | bot_handler.py:27-28 | A second `/start` while the loop is alive spawns nothing. |
| `LegacyChecker.GetNumbers` | checker.py:51-88 | One check sends exactly the messages of its `Report`, in order, and returns its result. |
| `LegacyChecker.GetBalance` | checker.py:91-106 | One balance lookup sends exactly one message. |
| `LegacyChecker.FoundIffFirstMatch` | checker.py:59-83 | `get_numbers` returns true if and only if the URL is set, a response arrives (whatever its status), it decodes to a mapping and has a first match for 22 / 4. |
| `LegacyChecker.StatusIgnored` | checker.py:70-103 | The HTTP status is never checked: a rejected response is scanned like an accepted one, and a rejected balance reply is still announced. |
| `LegacyChecker.ReportsFirstMatchOnly` | checker.py:74-83 | With a first match at k, exactly one message is sent, naming value k. |
| `LegacyChecker.AnyFailureThenFallback` | checker.py:84-88 | Every failure (unset URL, client error, body not JSON, a value the filter cannot test) sends "Ошибка", then "Нет доступных номеров", and returns false. |
| `LegacyChecker.Numbers` | checker.py:59-88 | `get_numbers` never raises and sends one or two messages. |
| `LegacyChecker.BalanceSent` | checker.py:91-106 | One message per lookup; with the URL set, every reply that arrives is announced as a balance, whatever its status. |
| `LegacyChecker.BalanceSendsOneMessage` | checker.py:96-106 | `get_balance` sends exactly one message: the text after the last marker whenever a reply arrives, "Ошибка" otherwise. |
| `LegacyChecker.SpawnKeeps` | checker.py:128 | A new loop keeps the loops' invariant. |
| `LegacyChecker.IdleKeeps` | checker.py:43-45 | A loop idling for one second while `STOP` is set keeps the invariant. |
| `LegacyChecker.CheckKeeps` | checker.py:46-48 | A check keeps the log spaced: 600 s between checks of one loop, 2400 s after a hit. |
| `LegacyChecker.LegacyBot.constructor` | checker.py:32 | At module load `STOP` is false and there is no loop. |
| `LegacyChecker.LegacyBot.StartCommand` | checker.py:118-128 | `/start` clears `STOP` and adds one more loop, however many are already running. |
| `LegacyChecker.LegacyBot.StopCommand` | checker.py:149-158 | `/stop` sets `STOP` and cancels nothing. |
| `LegacyChecker.LegacyBot.OnStartup` | checker.py:161-175 | `on_startup` adds one more loop. |
| `LegacyChecker.LegacyBot.Step` | checker.py:35-48 | One pass of `while True`: with `STOP` set the loop sleeps one second without checking; otherwise it checks once and sleeps 600 s, or 2400 s after a hit; no loop ever ends. |
| `LegacyChecker.LegacyBot.CheckCommand` | checker.py:131-137 | The body of `/check` makes one `get_numbers` call (dispatch is left out). |
| `LegacyChecker.LegacyBot.BalanceCommand` | checker.py:140-146 | The body of `/balance` makes one `get_balance` call (dispatch is left out). |
| `LegacyChecker.RestartDoublesPolling` | checker.py:118-158 | `/start`, `/stop`, `/start` leave two loops, and both of them check once the flag is clear. |

## Left out

- Replies to the sender of a command ("Работаем", "Остановлен") and `set_my_commands` are not modelled; only the administrator's notifications are.
- The text of exceptions (`{e}`) and the formatting of counts and prices in messages are not modelled; each message is identified by its kind and its data.
- `print(r.text)` in checker.py is console output and is left out.
- Delivery failures: `Chat.Send` always succeeds. In the source, a failing `send_message` inside a `try` block is caught by that block's catch-all handler: number_checker.py:37, :51 and :85 are caught at :66 and :96 (a failed notification at :51 is followed by "Неожиданная ошибка", then "Нет доступных номеров", and the call returns False); number_checker_aiohttp.py:41 and :68 are caught at :52 and :75; checker_solid.py:84 is caught at :87; checker.py:82 and :103 are caught at :84 and :104. Sends inside the handlers, the final "Нет доступных номеров", and checker_solid.py:65 (whose `get_numbers` has no catch-all) let the failure escape to the caller. Neither the caught nor the escaping failures are modelled.
- HTTP is replaced by the outcome of a request: URLs, headers, time limits and the exact status codes are not modelled. The balance requests and the `requests`-based `get_numbers` set a 10-second limit (number_checker.py:81, number_checker_aiohttp.py:65, checker_solid.py:54 and :81, checker.py:70 and :102). The aiohttp `get_numbers` requests (number_checker.py:28, number_checker_aiohttp.py:17) set none and are bounded only by aiohttp's default session timeout. Either limit appears only as the `Timeout` outcome, and the status only as accepted or rejected.
- JSON values of other types: a price is a number or missing, a country an integer or missing, and a count an integer or missing. A price of another type would raise `TypeError` when compared. Country and count are compared with Python's `==` and `!=`, so a country of `137.0` matches and a count of `0.0` is skipped, while a count of `"0"` is not equal to 0 and is reported. None of these other types is modelled.
- Concurrency: each loop step, command and check is atomic. A loop cancelled while awaiting a request is not modelled, nor is a `/check` interleaved with a loop's request. `Task.cancel()` takes effect at once, whereas asyncio delivers it at the task's next resumption.
- LegacyChecker.LegacyBot.CheckCommand and LegacyChecker.LegacyBot.BalanceCommand model the bodies of `check_command` and `balance_command` (checker.py:131-146). Both handlers are registered with `@dp.message` but declare no parameter, while aiogram's dispatcher passes the message to a handler. They would then fail with a `TypeError` before their body runs. Command dispatch is not modelled, so the model assumes the body runs.
- Configuration loading (config.py, the environment checks in main.py and checker.py) is left out. The model assumes the handler was built. In checker.py the URLs are read on every call, so whether each one is set is a parameter.
- main.py, sms_service.py and config.py are wiring. Only `send_message` (as `Chat.Send`) is modelled from them.
- `SolidChecker.Numbers` routes a body that does not decode to the `RequestException` handler, because `requests` raises a `JSONDecodeError` that derives from `RequestException` and is caught by it first. The `ValueError` handler at checker_solid.py:69-71 is therefore never reached in the model.

## Findings

| source | as written | input that shows it | evidently intended | confidence | as-written member | corrected member |
|---|---|---|---|---|---|---|
| number_checker_aiohttp.py:67 | `response.text.split(...)` calls `split` on the response's `text` coroutine method, so an `AttributeError` lands in the catch-all and "Неожиданная ошибка" is sent | any accepted reply, e.g. status 200 with body "ACCESS_BALANCE:42.50" | `(await response.text()).split(...)`, announcing "Баланс: 42.50" | high; not executed | `AiohttpChecker.BalanceAsWrittenNeverReports` | `AiohttpChecker.BalanceSendsOneMessage` |
