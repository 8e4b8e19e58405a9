# rktellolib in Dafny

A model of the protocol bookkeeping in rktellolib, a Python client for the
Ryze Tello drone. The client talks to the drone over two UDP channels:

- **TelloCommand** is the command channel (port 8889). `send` clears a
  one-slot response cache, transmits a text command, and then polls the slot
  every 0.1 s until a non-empty response arrives or 10 s have passed. It
  returns the response lower-cased. `send_rc` clamps four velocities into
  [-100, 100] and transmits `rc a b c d` without waiting for a reply. A
  receive thread writes each incoming datagram, less its trailing CR/LF,
  into the slot.
- **TelloState** is the telemetry channel (port 8890). A receive thread keeps
  the latest `key:value;key:value;...;` broadcast. `get(field)` splits it on
  `;` and `:` and returns the value of the first segment with that key.
- **Tello** is the facade. It keeps the "is flying" flag, issues the ordered
  command sequences of `connect` and `disconnect`, formats the motion
  commands (`up 50`, `cw 90`, ...), and maps each telemetry accessor to its
  key.

Both channels exist in two copies in the repository, one under `src/` and
one under `rktellolib/`. The model covers both. Where they differ, it
models each copy:

- `start` of the command channel: `TelloCommand.TelloCommand.Start` is the
  `src/` copy, `StartRaw` is the `rktellolib/` copy.
- `get` of the telemetry channel: `TelloState.Get` is the `src/` copy,
  `GetUnguarded` is the `rktellolib/` copy.

How the model stands in for operations that cannot be modelled directly:

- **Time.** An integer clock in milliseconds replaces `time.time()` and
  `time.sleep`. TIMEOUT is 10000, COMM_DELAY 100, RC_DELAY 1, and the poll
  interval 100.
- **The receive thread.** It is replaced by a script of arrivals: datagrams,
  each with the time from which it can be read. The thread handles them in
  order, so a datagram is in the slot at the first look that comes no
  earlier than its own arrival time and no earlier than that of every
  datagram before it. The thread writes the slot as soon as it reads a
  datagram, so when `send` clears the slot it erases every datagram read
  before the command went out. A datagram readable from that very
  millisecond lands after the clear.
- **The command channel, seen from the facade.** Every call the facade makes
  is an event in a log. The reply to a discrete command is whatever a
  response oracle gives for the log ending in that command.

Files:

- `wrappers.dfy`: the Option and Result datatypes, and Outcome (success, or
  the exception raised).
- `text.dfy`: the string operations the source relies on: `split`, `join`,
  `rstrip("\r\n")`, ASCII `lower`, and decimal formatting with its inverse.
- `channel.dfy`: what both channels share: faults, the thread phases, and
  one pass of a receive loop.
- `tello_command.dfy`, `tello_state.dfy` and `tello.dfy`: the three classes.

Behaviour that follows the code rather than the documented intent:

- **Pre-send delay.** When `send` is called less than COMM_DELAY after the
  last answered command, it sleeps for the time that has already passed,
  not for what remains of COMM_DELAY. `TransmitGap` proves the consequence:
  the spacing holds exactly when the call came at least COMM_DELAY / 2
  after the last one.
- **RC rate limit.** `__last_rc_command_time` is never written. It stays at
  0, which the class invariant `Valid` records, so from the first
  millisecond on every `send_rc` transmits.
- **`disconnect` and the flying flag.** `disconnect` sends `land` when
  flying but never clears the flag, whatever the reply.
- **Empty replies.** An empty reply does not end the wait: the loop tests
  `not self.__current_response`.
- **Constructor mismatch.** The facade (`rktellolib/Tello.py:39`) constructs
  its telemetry channel with two arguments. It imports the `rktellolib/`
  copy, whose constructor takes one (`rktellolib/TelloState.py:28`), so as
  written `Tello(...)` raises TypeError before any read. Only the `src/`
  copy accepts two. Having the facade's telemetry reads follow that copy
  (`TelloState.Get`) is a modelling choice. `TelloState.GetCopiesAgree`
  shows where the `rktellolib/` copy would differ.

## Model

| member | source | states |
|---|---|---|
| Text.Split | src/rktellolib/TelloState.py:70-71 | `str.split(sep)`: at least one piece, no piece holds the separator, and a single piece exactly when the separator does not occur |
| Text.JoinSplit | src/rktellolib/TelloState.py:70-71 | joining the pieces of a split with the separator gives back the original string |
| Text.SplitJoin | src/rktellolib/TelloState.py:70-71 | splitting a join of separator-free pieces gives back the pieces |
| Text.StripLineEnd | src/rktellolib/TelloCommand.py:62 | `rstrip("\r\n")`: the result is a prefix of the input, does not end in CR or LF, and only CR/LF characters were removed |
| Text.StripLineEndIdempotent | src/rktellolib/TelloCommand.py:62 | stripping twice is stripping once |
| Text.Lower | src/rktellolib/TelloCommand.py:115 | `.lower()` on ASCII: same length, each character mapped by the ASCII lower-case map |
| Text.LowerIdempotent | src/rktellolib/TelloCommand.py:115 | lower-casing twice is lower-casing once |
| Text.LowerIsOk | src/rktellolib/TelloCommand.py:75 | a reply that lower-cases to "ok" is exactly one of "ok", "OK", "Ok", "oK" |
| Text.NatToString | src/rktellolib/TelloCommand.py:135 | `'{}'.format(n)` of a natural: decimal digits only, with no leading zero unless the number is 0 |
| Text.IntToString | src/rktellolib/TelloCommand.py:135 | `'{}'.format(n)` of an integer: non-empty and without spaces |
| Text.ParseIntRoundTrip | src/rktellolib/TelloCommand.py:135 | reading back the decimal text of any integer gives that integer |
| Channel.ReceiveStep | src/rktellolib/TelloCommand.py:59-64 | a decode error leaves the slot as it was; a decoded datagram always fills it |
| TelloCommand.Clamp100 | src/rktellolib/TelloCommand.py:128-132 | the result lies in [-100, 100], is the identity on in-range values, and is -100 below and 100 above the range |
| TelloCommand.Clamp100Idempotent | src/rktellolib/TelloCommand.py:128-132 | clamping twice is clamping once |
| TelloCommand.RcCommandRoundTrip | src/rktellolib/TelloCommand.py:135-136 | the RC datagram is exactly "rc" and the four clamped values in argument order, separated by single spaces |
| TelloCommand.RcCommand | src/rktellolib/TelloCommand.py:135 | the RC datagram splits on spaces into exactly five words: "rc" and the four clamped values in decimal, in argument order |
| TelloCommand.TransmitGap | src/rktellolib/TelloCommand.py:91-93 | the pre-send sleep equals the elapsed time below COMM_DELAY and is zero otherwise; the command leaves at least COMM_DELAY after the last answer iff the call came at least COMM_DELAY / 2 after it |
| TelloCommand.PreSendDelay | src/rktellolib/TelloCommand.py:91-93 | the sleep is the elapsed time when below COMM_DELAY, otherwise zero; for a non-negative elapsed time it is never negative and always below COMM_DELAY |
| TelloCommand.TransmitTime | src/rktellolib/TelloCommand.py:91-97 | the command leaves no earlier than the call and less than COMM_DELAY after it; it leaves at once exactly when COMM_DELAY has passed since the last answer or no time at all |
| TelloCommand.DeliveredIsReadablePrefix | src/rktellolib/TelloCommand.py:56-64 | every arrival handled by a given time was readable by then, and the next one is not yet |
| TelloCommand.ReadablePrefixIsDelivered | src/rktellolib/TelloCommand.py:56-64 | conversely, a readable prefix followed by an arrival not yet readable is exactly what has been handled |
| TelloCommand.DeliveredMonotone | src/rktellolib/TelloCommand.py:56-64 | what the thread has handled by one time it has still handled by any later time |
| TelloCommand.SlotAfterEmpty | src/rktellolib/TelloCommand.py:62-64 | the cleared slot stays None exactly when every datagram handled since failed to decode |
| TelloCommand.SlotAfterLastDecoded | src/rktellolib/TelloCommand.py:62-64 | whatever the slot held before, it ends with the stripped text of the last datagram that decoded |
| TelloCommand.SlotAfterUndecodable | src/rktellolib/TelloCommand.py:63-64 | datagrams that all fail to decode leave the slot as it was |
| TelloCommand.FirstAnswer | src/rktellolib/TelloCommand.py:102-107 | the look it reports finds a non-empty response in the slot |
| TelloCommand.Responded | src/rktellolib/TelloCommand.py:103 | `not self.__current_response` is false exactly when the slot holds neither None nor the empty string |
| TelloCommand.FirstAnswerIsFirst | src/rktellolib/TelloCommand.py:103-106 | there is no answer exactly when no look up to the timeout finds a non-empty response; no look before the reported one finds one |
| TelloCommand.SendResult | src/rktellolib/TelloCommand.py:102-115 | what `send` returns is None or a non-empty reply already in lower case; FirstAnswerIsFirst and SlotAfterLastDecoded say which reply |
| TelloCommand.SingleReplyAnswered | src/rktellolib/TelloCommand.py:96-115 | a single non-empty reply readable no earlier than the command went out and no later than the last look makes `send` return it stripped and lower-cased |
| TelloCommand.StaleReplyErased | src/rktellolib/TelloCommand.py:96 | the clear erases a datagram read before the command went out: with a stale datagram 10 ms before and a reply 50 ms after, `send` returns the reply |
| TelloCommand.EarlyRepliesTimeOut | src/rktellolib/TelloCommand.py:96-106 | when every datagram was read before the command went out, the clear erases them all and `send` times out with None |
| TelloCommand.NotListeningTimesOut | src/rktellolib/TelloCommand.py:57 | without a running receive thread every `send` times out with None |
| TelloCommand.LateReplyTimesOut | src/rktellolib/TelloCommand.py:104-106 | replies that arrive after the last look (10.1 s) are never seen: `send` returns None |
| TelloCommand.TelloCommand.constructor | src/rktellolib/TelloCommand.py:27-44 | both timestamps 0, empty slot, thread created but not started, nothing sent |
| TelloCommand.TelloCommand.Advance | src/rktellolib/TelloCommand.py:91 | the clock moves forward and nothing else changes |
| TelloCommand.TelloCommand.Receive | src/rktellolib/TelloCommand.py:56-64 | while the thread runs, one datagram goes into the slot as the receive step says; otherwise the slot is untouched |
| TelloCommand.TelloCommand.ReceiveAvailable | src/rktellolib/TelloCommand.py:56-64 | the thread has handled exactly the arrivals readable by now, and the slot is what those handled since the clear leave in it |
| TelloCommand.TelloCommand.ReceiveBeforeClear | src/rktellolib/TelloCommand.py:56-64 | before the clear, the thread has handled exactly the arrivals readable before the command goes out, each overwriting the slot in turn from what it held |
| TelloCommand.TelloCommand.FirstLook | src/rktellolib/TelloCommand.py:96-103 | at the first look, right after clearing, the slot holds what the arrivals handled since the clear leave in it |
| TelloCommand.TelloCommand.NextLook | src/rktellolib/TelloCommand.py:107 | after each `sleep(0.1)` the clock is one poll interval on and the slot is as the arrivals handled since the clear leave it |
| TelloCommand.TelloCommand.Poll | src/rktellolib/TelloCommand.py:102-107 | the loop stops at the first look that finds a non-empty response, or gives up after the last look, with the clock at that look |
| TelloCommand.TelloCommand.Send | src/rktellolib/TelloCommand.py:89-115 | sleeps as the delay rule says, clears the slot (erasing what the thread read before), sends the command once, and returns the first non-empty response lower-cased, recording its time; on timeout it returns None and leaves the last command time alone; the clock never goes back |
| TelloCommand.TelloCommand.SendRc | src/rktellolib/TelloCommand.py:122-136 | transmits the clamped RC datagram unless less than RC_DELAY passed since the never-updated last RC time, so from 1 ms on it always transmits; never changes that time |
| TelloCommand.TelloCommand.Start | src/rktellolib/TelloCommand.py:69-76 | sets the flag; a second start raises and changes nothing else; otherwise starts the thread, sends "command", leaves the clock, the last command time and the slot as `send` does, and succeeds exactly when the reply is "ok" |
| TelloCommand.TelloCommand.StartRaw | rktellolib/TelloCommand.py:69-75 | sends exactly one bare "command" datagram and sets the flag without waiting for a reply; a second start raises |
| TelloCommand.TelloCommand.Stop | src/rktellolib/TelloCommand.py:81-82 | clears the flag; a running receive thread leaves its loop |
| TelloState.ValueOf | src/rktellolib/TelloState.py:71-73 | `parts[1]`: an IndexError exactly when the segment holds no ':', otherwise a value holding no ':' |
| TelloState.FieldIn | src/rktellolib/TelloState.py:69-74 | None exactly when no segment's key is the name; otherwise the value of the first segment with that key; the only error is IndexError |
| TelloState.StateField | src/rktellolib/TelloState.py:69-74 | `__get_state_field`: the only error is IndexError, and a value found holds no ':'; StateFieldCases says which value |
| TelloState.StateFieldCases | src/rktellolib/TelloState.py:69-74 | on a state string: None iff no segment has the key; on the first matching segment, an error iff it holds no ':', else `parts[1]`, the text between its first ':' and the next one (or its end) |
| TelloState.KeyValueSegment | src/rktellolib/TelloState.py:71-73 | a `key:value` segment has that key and yields that value |
| TelloState.FrameLookup | src/rktellolib/TelloState.py:69-74 | in a broadcast `k1:v1;...;`, a lookup gives the value of the first entry with the key, None for an absent non-empty key, and IndexError for the empty key, which matches the empty segment after the final ';' |
| TelloState.Get | src/rktellolib/TelloState.py:94-100 | None before any state arrived; with no field the raw state; otherwise the field lookup |
| TelloState.GetUnguarded | rktellolib/TelloState.py:88-92 | with no field the current state (None before any arrived); a field lookup before any state fails on `None.split`; otherwise the field lookup |
| TelloState.GetCopiesAgree | rktellolib/TelloState.py:88-92 | the two copies of `get` agree once a state has arrived, and differ only on a field lookup before one has |
| TelloState.TelloState.constructor | src/rktellolib/TelloState.py:22-41 | empty slot, thread created but not started, callback recorded |
| TelloState.TelloState.Receive | src/rktellolib/TelloState.py:53-64 | while the thread runs, the stripped broadcast replaces the whole state and goes to the callback if there is one; a decode error changes nothing |
| TelloState.TelloState.Start | src/rktellolib/TelloState.py:79-81 | sets the flag and starts the thread; a second start raises |
| TelloState.TelloState.Stop | src/rktellolib/TelloState.py:86-87 | clears the flag; a running receive thread leaves its loop |
| Tello.Verb | rktellolib/Tello.py:90-105 | each motion's verb is a lower-case word of at least two letters, hence without spaces |
| Tello.MotionCommand | rktellolib/Tello.py:90-105 | `'<verb> {}'.format(n)` splits on spaces into exactly two words: the motion's verb and the magnitude in decimal |
| Tello.MotionCommandRoundTrip | rktellolib/Tello.py:90-105 | a motion command is exactly the verb, one space, and the magnitude in decimal; it reads back as the same motion and magnitude |
| Tello.ReadingKey | rktellolib/Tello.py:137-168 | each accessor's key is non-empty and holds neither ':' nor ';' |
| Tello.ReadingKeyInjective | rktellolib/Tello.py:137-168 | two accessors read the same key exactly when they are the same accessor |
| Tello.GetTempAsWritten | rktellolib/Tello.py:139-140 | `get_temp` as written never returns a temperature: it raises TypeError once both lookups succeed |
| Tello.Mean | rktellolib/Tello.py:140 | the mean of two readings is present iff both are, its double is their sum, and it lies between them |
| Tello.Temperature | rktellolib/Tello.py:140 | the intended `get_temp` is present exactly when both readings are decimal integers, and then lies between them |
| Tello.TemperatureOfFrame | rktellolib/Tello.py:140 | in a broadcast carrying integers in `temph` and `templ`, the intended temperature is their mean |
| Tello.TemperatureExample | rktellolib/Tello.py:140 | for `temph:70;templ:68;` the code as written raises TypeError, while the intended value is 69 |
| Tello.ConnectEvents | rktellolib/Tello.py:48-55 | connect starts the command channel, then the telemetry channel; with video, and only then, it sends "streamoff" then "streamon" and then starts the camera |
| Tello.DisconnectEvents | rktellolib/Tello.py:58-67 | disconnect sends "land" first iff flying; with video, and only then, "streamoff" and then the camera stop; it ends by stopping telemetry, then the command channel; nothing else happens and nothing happens twice |
| Tello.Tello.constructor | rktellolib/Tello.py:35-42 | not flying, nothing sent, video flag recorded |
| Tello.Tello.SendCommand | rktellolib/Tello.py:71 | one discrete command goes out and its reply is the drone's answer to it |
| Tello.Tello.Connect | rktellolib/Tello.py:48-55 | the log grows by exactly the connect sequence |
| Tello.Tello.Disconnect | rktellolib/Tello.py:58-67 | the log grows by exactly the disconnect sequence, and the flying flag is unchanged |
| Tello.Tello.Takeoff | rktellolib/Tello.py:70-74 | sends "takeoff" once; flying becomes true exactly when the reply is "ok", otherwise unchanged; the reply is returned unchanged |
| Tello.Tello.Land | rktellolib/Tello.py:77-81 | sends "land" once; flying becomes false exactly when the reply is "ok", otherwise unchanged; the reply is returned unchanged |
| Tello.Tello.KeepAlive | rktellolib/Tello.py:84-85 | sends exactly "battery?" and nothing else |
| Tello.Tello.GetBattery | rktellolib/Tello.py:135-136 | sends exactly "battery?" and returns its reply |
| Tello.Tello.Move | rktellolib/Tello.py:90-105 | each motion sends exactly one `<verb> <n>` command and returns the reply unchanged |
| Tello.Tello.Rc | rktellolib/Tello.py:110-111 | passes the four velocities unchanged to the RC sender |
| Tello.Tello.GetFrame | rktellolib/Tello.py:116-120 | None whenever there is no video; otherwise the camera's latest frame |
| Tello.Tello.GetStates | rktellolib/Tello.py:126-127 | the raw telemetry string, or None before any arrived |
| Tello.Tello.GetState | rktellolib/Tello.py:130-131 | None before any telemetry arrived; otherwise the lookup of the field |
| Tello.Tello.GetReading | rktellolib/Tello.py:137-168 | every accessor is the telemetry lookup of its own key (`time`, `baro`, `h`, `tof`, `agx`, `agy`, `agz`, the three keys `vg` + x, y or z, `roll`, `pitch`, `yaw`), and None before any telemetry arrived |

## Left out

- Sockets, `sendto` and `recvfrom`, threads, `time.sleep` and `time.time`, `__del__`, and the debug and error `print`s. Time is an integer millisecond clock. The receive thread is a script of arrivals handled in order at each look at the slot.
- Races between the receive thread and `send`: the thread is assumed to handle everything readable before the clear ahead of the clear, and everything readable at each look ahead of the look. A datagram readable at the very millisecond of the clear is taken to land after it.
- The 1024-byte limit of `recvfrom(1024)` (src/rktellolib/TelloCommand.py:59, src/rktellolib/TelloState.py:57): a longer datagram is truncated by the socket, while a decoded datagram here carries its whole payload.
- UTF-8 decoding: a datagram is either decoded text or undecodable. A socket error in `recvfrom` counts as undecodable, since the loop logs and skips both.
- The receive thread's last pass after `stop`: the thread stays blocked in `recvfrom` (it has no timeout) after the flag drops, and handles one more datagram before it sees the flag. The model stops receiving at once. So when `stop` is followed by `start` before the next datagram, the old thread sees the flag raised again and goes on receiving for good, even though the second `Thread.start()` raises. The model has that thread exited, and every later `send` times out (`TelloCommand.NotListeningTimesOut`).
- TelloState's 0.1 s sleep between reads. Its receive step is modelled per datagram, with no clock.
- Timing jitter: each look happens exactly one poll interval after the last, and the time spent by `sendto` is zero.
- Arrivals that the poll does not need are not carried over to the next `send`: each `send` is given its own script.
- Channel.ReceiveStep: its own contract says only that a decoded datagram fills the slot. What is stored, the stripped text, is stated by Text.StripLineEnd.
- Python's Unicode `str.lower`: the model lower-cases ASCII A-Z only.
- Tello.Tello.Connect: the facade does not model a failing start. It uses the `rktellolib/` command channel, whose `start` never waits for a reply, so a missing "ok" cannot fail `connect`. Two failures can escape it. The first is the RuntimeError of a second `Thread.start()` (rktellolib/TelloCommand.py:75, rktellolib/TelloState.py:75), e.g. when `connect` is called twice; the model logs the whole connect sequence again then. The second is the camera's exception (src/rktellolib/TelloCam.py:63-64).
- The camera (`src/rktellolib/TelloCam.py`): the facade's view of it is the latest frame, passed to `get_frame` as a value. Starting and stopping it are events in the log.
- The state callback is a foreign callable. The model records the states it is handed.
- The wiring of the facade's constructor to the two channel copies is not modelled. The facade's telemetry reads follow the `src/` copy.
- Tello.Temperature: it returns a real mean where Python would return a float.

## Findings

| source | as written | input that shows it | evidently intended | confidence | as-written member | corrected member |
|---|---|---|---|---|---|---|
| rktellolib/Tello.py:140 | `(self.get_state('temph') + self.get_state('templ')) / 2` adds two strings, which concatenates them, then divides the string by 2, which raises TypeError. When a key is missing it adds None, also TypeError | telemetry `temph:70;templ:68;` | the mean of the two readings as numbers, 69 | not executed | Tello.GetTempAsWritten | Tello.TemperatureOfFrame |
