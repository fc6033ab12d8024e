# wifi-monitor decision core, in Dafny

A model of the decision logic of `wifi-monitor`. This program bridges Wi-Fi presence to webhooks. It reads the lines that `iw event` prints, recognises station connections (`new station <mac>`) and disconnections (`del station <mac>`), and checks each one against two settings: an allow-list of MAC addresses (where `*` matches any address) and a per-event webhook rule (`online` / `offline`) with an optional time-of-day gate. When an event passes, it fills a curl-style request template with the address and the event key, sends the request, and counts only a 2xx status as success. A failed request is logged, and the loop moves on to the next line.

Modules, one per component:

- `Wrappers` (wrappers.dfy): `Option` and `Outcome`.
- `Tokens` (tokens.dfy): `split_whitespace`. It uses the Unicode `White_Space` set that Rust's `char::is_whitespace` tests.
- `Fields` (fields.dfy): `str::split(':')`. Empty pieces are kept, and there is always at least one piece.
- `Decimal` (decimal.dfy): `str::parse::<u32>`. It accepts an optional leading `+` and then ASCII digits. A value of 2^32 or more is rejected. An operational digit-by-digit loop with overflow checks is proved equal to a declarative reading.
- `TimeCondition` (time_condition.dfy): `TimeCondition`, `parse_time`, `is_time_condition_satisfied`.
- `Events` (events.dfy): `IwEvent`, `parse_event`.
- `Policy` (policy.dfy): the config records, the event key, the allow-list, the rule lookup and time gate of `handle_event`, and the context map given to the template.
- `Dispatcher` (dispatcher.dfy): `execute_command`. Template resolution plus the HTTP exchange is a `Client` function that returns an `Exchange`: a bad template, no response, or a response with a status.
- `Pipeline` (pipeline.dfy): the loop of `monitor_iw_events`. It is modelled both as a fold over a finite `seq<string>` of lines and as a `while` loop proved equal to that fold.

Modelling choices:

- "Now" is a `LocalTime(hour < 24, minute < 60)`, because the source reads only `now.hour()` and `now.minute()`.
- The clock and the network belong to a `World`. Both are indexed by the position of the line being handled, so every line sees its own time and its own network behaviour.
- `Policy.Decide` returns `Fire(dispatch)` or `Skip(reason)`. This refines the source's "dispatch or not" with the reason for not dispatching: `NotMonitored`, `NoRule` or `OutsideWindow`.
- Three behaviours of the code are easy to miss; the model keeps each one:
  - Configured times are not clamped to a day, so `"25:99"` is hour 25, minute 99.
  - A range whose start is after its end never holds, at any time of day.
  - When the line stream ends, the loop ends normally.

## Model

| member | source | states |
|---|---|---|
| Tokens.SplitWhitespace | src/main.rs:105 | every token is non-empty and holds no whitespace character |
| Tokens.SplitKeepsContent | src/main.rs:105 | gluing the tokens back together gives exactly the line's non-whitespace characters, in their original order |
| Tokens.SplitJoin | src/main.rs:105 | round trip: tokens joined by single spaces split back into the same tokens |
| Tokens.SplitSkipsWhitespace | src/main.rs:105 | leading whitespace never changes the tokens |
| Fields.Split | src/time_condition.rs:53 | splitting on `:` always gives at least one piece, and no piece contains `:` |
| Fields.JoinSplit | src/time_condition.rs:53 | splitting loses nothing: the pieces joined with `:` give back the input |
| Fields.SplitJoin | src/time_condition.rs:53 | round trip the other way: `:`-free pieces joined and split again are the same pieces |
| Fields.SplitFirstPiece | src/time_condition.rs:53 | a `:`-free first piece is split off intact, and the rest is split on its own |
| Decimal.ParseU32 | src/time_condition.rs:54-55 | parsing succeeds exactly on an optional `+` followed by one or more ASCII digits whose value is below 2^32, and then returns that value |
| Decimal.AccumulateValue | src/time_condition.rs:54-55 | the digit-by-digit loop with per-step overflow checks accepts exactly the digit strings whose final value fits in 32 bits, and computes that value |
| Decimal.ValueOfDigits | src/time_condition.rs:54-55 | round trip: the decimal rendering of any natural number reads back as that number |
| Decimal.ParseDigits | src/time_condition.rs:54-55 | every `u32`, rendered in decimal, parses back to itself |
| TimeCondition.ParseTime | src/time_condition.rs:52-56 | the hour is the first `:`-piece's `u32` value, or 0 when that piece is not a `u32`; the minute is the second piece's `u32` value, or 0 when there is no second piece or it is not a `u32` |
| TimeCondition.ParseTimeOfPieces | src/time_condition.rs:52-56 | `"H:M"` with `u32` pieces (leading zeros and `+` allowed) reads as `(H, M)`, also when more `:`-pieces follow |
| TimeCondition.ParseRenderedTime | src/time_condition.rs:52-56 | round trip: `"<h>:<m>"` printed in decimal reads back as `(h, m)` for every pair of `u32` values |
| TimeCondition.ParseTimeIgnoresExtraPieces | src/time_condition.rs:53-56 | pieces after the second `:` never change the result |
| TimeCondition.ParseTimeFailsOpen | src/time_condition.rs:53-55 | without `:`, the minute is 0, and the hour is 0 unless the whole text is a `u32` (so `"noon"` means 00:00) |
| TimeCondition.ParseTimeMinuteFailsOpen | src/time_condition.rs:53-55 | `"<h>:<m>"`, with or without further `:`-pieces, reads each piece on its own: a piece that is not a `u32` becomes 0 without affecting the other |
| TimeCondition.ParseTimeFieldExamples | src/time_condition.rs:53-55 | `"9:"` reads as 09:00 (an empty minute is 0) and `"ab:30"` reads as 00:30 (a bad hour is 0, the minute is kept) |
| TimeCondition.ParseTimeDoesNotClamp | src/time_condition.rs:54-56 | `"25:99"` reads as hour 25, minute 99: nothing is clamped |
| TimeCondition.ParseTimeBareHour | src/time_condition.rs:53-55 | `"9"` reads as 09:00, and the empty string reads as 00:00 |
| TimeCondition.IsSatisfied | src/time_condition.rs:13-48 | no condition always holds; a range holds iff start ≤ now ≤ end (both ends inclusive); `After` holds iff now ≥ t; `Before` holds iff now < t; all compared as minute-of-day |
| TimeCondition.AfterBeforeComplementary | src/time_condition.rs:27-45 | for the same configured time, exactly one of `After` and `Before` holds |
| TimeCondition.InvertedRangeNeverHolds | src/time_condition.rs:15-25 | a range whose start is after its end (an overnight range) never holds |
| TimeCondition.RangeIsAfterStartUpToEnd | src/time_condition.rs:15-45 | a range holds iff `After(start)` holds and either `Before(end)` holds or now is exactly `end` |
| TimeCondition.RangeIsConvex | src/time_condition.rs:15-25 | a range that holds at two times also holds at every time between them |
| TimeCondition.TimesPastMidnight | src/time_condition.rs:27-45 | for a configured time past the end of the day, `After` never holds and `Before` always holds |
| TimeCondition.RangeBoundaryExamples | src/time_condition.rs:15-25 | the range 09:00–17:30 holds at 09:00 and 17:30, but not at 08:59 or 17:31 |
| TimeCondition.AfterBeforeBoundaryExamples | src/time_condition.rs:27-45 | `After("22:00")` holds at 22:00 and not at 21:59; `Before("06:00")` holds at 05:59 and not at 06:00 |
| Events.ParseEvent | src/main.rs:103-120 | a line gives an event iff it has at least 4 tokens, token 2 is `station` and token 1 is `new` or `del`; the event's address is token 3 and its kind follows token 1 |
| Events.ParseJoinedTokens | src/main.rs:103-120 | for a line made of given tokens: `New(t3)` for `_ new station t3 …`, `Del(t3)` for `_ del station t3 …`, and nothing otherwise (fewer than 4 tokens, a different token 2, or another action) |
| Events.ParseEventLine | src/main.rs:105-110 | round trip: an event printed as an `iw` line parses back to that event, whatever the first token and whatever tokens follow the address |
| Events.ParseIgnoresOtherTokens | src/main.rs:105-110 | any two lines, however spaced, with at least 4 tokens each and equal tokens 1 to 3 parse alike: token 0 and tokens after index 3 are ignored |
| Events.UnknownActionIsDropped | src/main.rs:108-114 | any line whose token 1 is neither `new` nor `del` gives nothing, even when it has 4 or more tokens and token 2 is `station` |
| Events.ParseSkipsLeadingWhitespace | src/main.rs:105 | leading whitespace does not change how a line parses |
| Events.ParseStationLine | src/main.rs:105-110 | `"<iface> new station <mac>"` gives `New(mac)` and `"<iface> del station <mac>"` gives `Del(mac)` |
| Policy.EventKey | src/main.rs:125-134 | the key is `online` exactly for a connection and `offline` exactly for a disconnection |
| Policy.Decide | src/main.rs:122-152 | an event is skipped as not monitored iff its address is not on the allow-list and `*` is not either; a request fires iff the address is allowed, a rule exists for the event key, and that rule's time condition holds; the request uses that rule's command, the event's address and the key |
| Policy.DispatchContext | src/main.rs:155-158 | the template context has exactly the keys `mac_address` and `event`, bound to the address and the event key |
| Policy.WildcardIgnoresAddress | src/main.rs:137-140 | with `*` on the allow-list, the address affects neither whether a connection or a disconnection fires a request nor which command that request uses |
| Policy.KeysAreIndependent | src/main.rs:143 | changing the `offline` rule never changes what a connection event does |
| Policy.FiredDispatchMatchesEvent | src/main.rs:125-147 | a fired request carries the event's own address, and `online`/`offline` as its kind dictates, both in the request and in its context |
| Dispatcher.ExecuteCommand | src/main.rs:154-177 | success iff the exchange yields a response with status 200–299; any other status is `RequestFailed(status)`; a bad template is `TemplateError`; no response is `TransportError` |
| Dispatcher.OutcomeDependsOnlyOnExchange | src/main.rs:161-176 | two clients that answer this request alike give the same outcome |
| Pipeline.HandleLine | src/main.rs:88-92 | a line is ignored iff it does not parse; a request is made iff the parsed event passes the policy at that line's time; a skip records the policy's reason; a request is delivered iff its execution succeeds and otherwise records the execution's error |
| Pipeline.MonitorFrom | src/main.rs:85-93 | one record per line, in order; record `i` is exactly what line `i` gives on its own, so an earlier failure never affects a later line |
| Pipeline.MonitorIwEvents | src/main.rs:85-95 | the `while` loop produces exactly the fold over all lines |
| Pipeline.SentRequests | src/main.rs:88-92 | at most one request per line; every requesting record's dispatch is among the requests sent, and every request sent is the dispatch of some requesting record |
| Pipeline.SentRequestsOfOne | src/main.rs:88-92 | a single record sends its own dispatch if it made a request, and nothing otherwise |
| Pipeline.LaterLinesUnaffected | src/main.rs:85-93 | running over `a + b` gives the records of `a`, then the records of `b` as if `b` ran alone from its position |
| Pipeline.SentRequestsAppend | src/main.rs:85-93 | the requests of a run are those of its prefix followed by those of its suffix |
| Pipeline.RequestsRespectPolicy | src/main.rs:137-148 | every request in a run had an allowed address, a configured rule for its key, that rule's command, and a time condition that held when its line was handled |
| Pipeline.EventLinesAreHandled | src/main.rs:88-89 | a well-formed station line is never ignored, wherever it stands, and carries its event |
| Pipeline.ParseNewExample | src/main.rs:103-110 | `"x new station AA:BB:CC:DD:EE:FF"` gives `New("AA:BB:CC:DD:EE:FF")` |
| Pipeline.ParseDelExample | src/main.rs:103-110 | `"x del station 11:22:33:44:55:66"` gives `Del("11:22:33:44:55:66")` |
| Pipeline.EndToEndExample | src/main.rs:122-158 | a monitored device connecting, with an ungated `online` rule, gives exactly one request, with context `{mac_address ↦ AA:BB:CC:DD:EE:FF, event ↦ online}` |
| Pipeline.FailedRequestDoesNotStopLoop | src/main.rs:85-93 | a non-2xx answer is recorded as `RequestFailed` for that line, and the next line is still handled exactly as it would be alone |

## Left out

- `load_config` and `setup_logging` (src/main.rs:24-57) are left out, and so is `main`. They are file reading, TOML deserialisation and log sinks. The loaded configuration is a `Config` value.
- Spawning `iw event` and reading its output asynchronously (src/main.rs:73-83) are left out. The input is a finite `seq<string>` of lines, already split and without their line terminators.
- A read error on the line stream (`next_line().await?`) is left out. In the source it ends the loop with an error; the model has no failing reads.
- `ParsedRequest::load`, `build_reqwest` and `send` are foreign code. Together they are the abstract `Client`, and only its result kind matters. A failure of `load` or of `build_reqwest` is one case: `BadTemplate`.
- `Local::now()` and the time-zone types are left out. The time is the `World`'s clock, read per line. The source declares `DateTime<Tz>` but is passed a `Local` time; only hour and minute are read, so this mismatch does not matter here.
- Pipeline.MonitorFrom: the model assumes every exchange finishes. The source sets no request timeout (src/main.rs:165-169), so a `send` that never completes stalls the loop and every later line. The model has no such case.
- Logging (`info!`, `warn!`, `error!`) is left out. Its only effect on the model is that a failure becomes a `Failed` record.
- TimeCondition.IsSatisfied: minute-of-day is computed on unbounded naturals. In Rust, `hour * 60 + minute` is `u32` arithmetic. The multiplication overflows from hour 71582789. The addition overflows whenever `hour * 60 + minute` reaches 2^32, for example for `"1:4294967295"` or `"71582788:16"`. Either overflow panics in debug builds and wraps in release builds. Neither case is modelled.
- Dispatcher.ExecuteCommand: the status code is any natural number. The `http` crate's 100–999 range is not enforced.
- Tokens.SplitWhitespace: it works on Unicode scalar values with the `White_Space` list written out. Rust works on UTF-8 bytes decoded to `char`, which gives the same tokens.
