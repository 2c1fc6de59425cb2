# IOT_Sensores firmware: command interpreter and publish logic in Dafny

This project models the logic of an ESP32 sensor sketch (`main.c++`). The
sketch samples a DHT11 temperature/humidity sensor, a light sensor (LDR) and
six buttons. It publishes them over MQTT every ten seconds. It also obeys
commands that drive a buzzer, three indicator LEDs and an OLED display.

The model has five modules:

- `ArduinoString` (`arduino_string.dfy`): the Arduino `String` tests
  `startsWith`/`endsWith`, `toInt` and base-10 `itoa`. `toInt` is `atol` from
  section 7.22.1.2 of ISO/IEC 9899:2011: skip white space, read an optional
  sign, then the leading digits, and give 0 when there are no digits.
  `ToInt` reads back what `Itoa` writes (`ToIntItoa`).
- `Commands` (`commands.dfy`): the topics, the `Command` datatype and the pure
  decoding done by `messageCallback`. `Route` handles the exact topic match.
  `Interpret` runs the ordered chain of string tests on the command topic.
- `Timer` (`timer.dfy`): `unsigned long` as a 32-bit newtype, with the
  wrapping subtraction behind `now - lastPub >= PUB_INTERVAL_MS`. `Millis`
  maps real time to the wrapping counter. `Schedule` tells which passes of
  `loop` publish.
- `Device` (`device.dfy`): the `Board` class. Its fields are the levels of
  the red, green and blue LEDs, the buzzer tone, the display text, `lastPub`
  and an ordered `trace` of outputs (MQTT publishes and subscriptions, tone
  on/off, LED writes). Its methods are the callback, the buzzer alert,
  `publishReadings` and the timer step of `loop`. Each method's result is
  tied to pure functions (`Effect`, `Emitted`, `Publications`), and lemmas
  about those functions state what the source promises.
- `Wrappers` (`wrappers.dfy`): `Option`, used for sensor reads that can fail
  and for the buzzer tone.

Four behaviours of the code differ from what a first reading suggests:

- The command name suggests that `"buzzer250"` means 250 Hz. But
  `msg.substring(7)` skips index 6, the character right after `buzzer`, so
  `"buzzer250"` sounds 50 Hz and `"buzzer:250"` sounds 250 Hz
  (`BuzzerSkipsSeventhCharacter`, `BuzzerWithSeparator`). The source does not
  say which command format is intended. A separator character would make
  offset 7 correct, so this is recorded here and not claimed as a defect.
- The tone sounds and stops before red goes HIGH and then LOW; the two do not
  overlap (`AlertOutputs`, `Device.Board.ActivateBuzzerAndLED`).
- `lastPub` is updated before `publishReadings` runs. So a failed DHT read
  still uses up the ten-second slot (`Device.Board.Tick`).
- The publish test sees elapsed time modulo 2^32 ms (about 49.7 days).
  `connectWiFi` and `ensureMqtt` block for as long as the network is down. After
  a stall of 2^32 ms or more, the next publish can come up to 10 s late: a pass
  2^32 + 5000 ms after `lastPub` does not publish (`Timer.StallSeenModuloWrap`).
  It never comes early (`Timer.NeverEarly`).

## Model

| member | source | states |
|---|---|---|
| `Device.ReadPayload` | main.c++:80-82 | the text built from the payload has one character per byte, with the same code, in order |
| `Device.PayloadString` | main.c++:81-82 | the callback's text: one character per byte, with the same code, in order; `Device.ReadPayload`'s loop builds it |
| `Commands.Route` | main.c++:85-110 | the exact topic match of `messageCallback`; what it selects is stated by `Commands.RouteByTopic` |
| `Commands.RouteByTopic` | main.c++:85-110 | the command topic goes to the interpreter; the message topic goes to the display unchanged; any other topic gives no action; only the message topic reaches the display |
| `Commands.PrefixesExclusive` | main.c++:88-106 | no text passes two different tests of the chain (`publish_now`, `buzzer`, `led_vermelho`, `led_verde`, `led_azul`) |
| `Commands.Interpret` | main.c++:87-107 | the ordered chain of tests on the command topic; `Commands.InterpretTable` states when each command is chosen, `Commands.BuzzerFrequency` the frequency and `Commands.LedLevel` the level |
| `Commands.InterpretTable` | main.c++:87-107 | each command is chosen exactly when its test holds (`publish_now` must match exactly; the other four are prefix tests); a text that passes none is ignored; the command topic never reaches the display |
| `Commands.BuzzerFrequency` | main.c++:91-96 | for a `buzzer` text of length at most 7 the frequency is 400; otherwise it is `toInt` of the text from index 7 on |
| `Commands.BuzzerRoundTrip` | main.c++:91-96 | `buzzer`, any one character, then a decimal number (and anything not starting with a digit) sounds exactly that number |
| `Commands.BuzzerSkipsSeventhCharacter` | main.c++:93-95 | `"buzzer250"` sounds 50 Hz |
| `Commands.BuzzerWithSeparator` | main.c++:93-95 | `"buzzer:250"` sounds 250 Hz |
| `Commands.BuzzerDefaultExamples` | main.c++:92-95 | `"buzzer"` and `"buzzerX"` sound the default 400 Hz |
| `Commands.LedLevel` | main.c++:98-106 | an LED command addresses the LED its prefix names; it turns the LED on exactly when the text's last character is '1' |
| `Commands.LedRoundTrip` | main.c++:98-106 | an LED prefix, anything, then a final '1' or '0' sets that LED HIGH or LOW |
| `Device.LedCommandWritesOnlyItsPin` | main.c++:98-106 | an LED command writes only its own pin: HIGH iff the text ends in '1'; the other two LEDs and the buzzer are unchanged; the only output is that one write |
| `Device.Effect` | main.c++:87-121 | the pin levels after one command; `Device.LedCommandWritesOnlyItsPin`, `Device.BuzzerAlertLeavesRedLow` and `Device.UnmatchedMessageChangesNothing` state it per command |
| `Device.Emitted` | main.c++:87-121 | the outputs of one command, in order; the same three lemmas state them, and `Device.ReadGate` states those of `publish_now` |
| `Device.BuzzerAlertLeavesRedLow` | main.c++:113-121 | after a buzzer command the buzzer is silent and red is LOW, whatever red was before; green and blue are unchanged; the outputs are tone on at the decoded frequency, tone off, red HIGH, red LOW, in that order |
| `Device.UnmatchedMessageChangesNothing` | main.c++:87-111 | an unknown topic, or a command text that passes no test, changes no pin and sends nothing |
| `Device.ButtonStatus` | main.c++:164-170 | the six appends build exactly the button mask text |
| `Device.ButtonMask` | main.c++:164-170 | the button text; `Device.ButtonMaskActiveLow` states its length, alphabet and active-low meaning |
| `Device.ButtonMaskActiveLow` | main.c++:164-170 | the button text has length 6; every character is '0' or '1'; character i is '1' iff button i+1 reads LOW |
| `Device.Board.LedStatus` | main.c++:173-176 | the three appends build the LED mask of the current pin levels |
| `Device.LedMask` | main.c++:173-176 | the LED text; `Device.LedMaskOrder` states its length, alphabet and red-green-blue order |
| `Device.LedMaskOrder` | main.c++:173-176 | the LED text has length 3, made of '0'/'1', with red, green and blue in that order, '1' for HIGH |
| `Device.Publications` | main.c++:145-177 | the five retained publishes of `publishReadings`, or none after a failed read; stated by `Device.ReadGate` |
| `Device.ReadGate` | main.c++:145-177 | a missing humidity or temperature suppresses all five publishes; otherwise temperature, humidity, light, buttons and LEDs are published in that order, all retained, carrying the two readings, `itoa` of the light value, the button mask and the LED mask |
| `Device.Board.constructor` | main.c++:37 | the state before `setup` connects to the broker: outputs LOW, buzzer silent, blank display, `lastPub` 0, nothing sent |
| `Device.Board.WriteLed` | main.c++:99-120 | each `digitalWrite` on an LED pin (lines 99, 102, 105, 118 and 120) changes only the addressed LED's level and records the write |
| `Device.Board.ActivateBuzzerAndLED` | main.c++:113-121 | the alert leaves red LOW and the buzzer silent; the other pins and the display stay as they were; it sends tone on, tone off, red HIGH, red LOW |
| `Device.Board.DisplayMessage` | main.c++:184-191 | the display shows exactly the message; nothing else changes |
| `Device.Board.PublishReadings` | main.c++:145-177 | the outputs added are exactly `Publications` of the readings and the current LED levels; no pin changes |
| `Device.Board.Apply` | main.c++:87-110 | the new pin levels are `Effect` of the old levels; the outputs added are `Emitted`; only a buzzer command changes the tone (to silent); only a display command changes the screen; `lastPub` is unchanged |
| `Device.Board.MessageCallback` | main.c++:80-111 | the callback acts on `Route(topic, text of the payload)`: pins, tone, outputs and screen change as that command says, and `lastPub` is unchanged |
| `Device.Board.Tick` | main.c++:236-240 | it publishes iff `Due(now, lastPub)`; `lastPub` becomes `now` exactly then, even if the sensor read fails; pins and screen are unchanged |
| `Device.Board.OnBrokerConnected` | main.c++:133-137 | after a successful connect: subscribe to the command topic, subscribe to the message topic, then publish a retained "online" |
| `Timer.Minus` | main.c++:237 | `unsigned long` subtraction: the result is the one value that, added to `lastPub` modulo 2^32, gives `now` |
| `Timer.Due` | main.c++:237 | the publish test on the wrapped difference; `Timer.DueIffIntervalPassed` states that it fires iff ten seconds of real time have passed, when less than 2^32 ms separate the readings |
| `Timer.NextLastPub` | main.c++:237-238 | `lastPub` after one pass of `loop`: `now` when the test fires, unchanged otherwise; `Timer.NextPublishAfterInterval` and `Device.Board.Tick` use it |
| `Timer.ElapsedAcrossWrap` | main.c++:236-237 | the unsigned difference of two `millis()` readings less than 2^32 ms apart is the real time between them, even across a wrap |
| `Timer.DueIffIntervalPassed` | main.c++:236-238 | when less than 2^32 ms (about 49.7 days) separate the two readings, the publish test fires iff at least 10000 ms of real time have passed since `lastPub` was taken |
| `Timer.NeverEarly` | main.c++:236-238 | whatever the gap, including one of 2^32 ms or more, the test fires only when at least 10000 ms of real time have passed |
| `Timer.StallSeenModuloWrap` | main.c++:237 | a pass 2^32 + 5000 ms after `lastPub` does not publish: the test sees the gap modulo 2^32 |
| `Timer.NextPublishAfterInterval` | main.c++:236-240 | after a publish at time t0, with every pass less than 2^32 ms (about 49.7 days) after t0, no pass earlier than t0 + 10 s publishes, and the first pass at or after t0 + 10 s does, across counter wrap-around |
| `ArduinoString.SkipSpace` | main.c++:94 | `atol` skips exactly the leading white space |
| `ArduinoString.DigitPrefix` | main.c++:94 | `atol` reads the longest run of digits at the front |
| `ArduinoString.ValueOfDigits` | main.c++:161 | the digits `itoa` writes for n denote n |
| `ArduinoString.DigitPrefixOfDigits` | main.c++:94 | the digit run stops exactly where the digits stop |
| `ArduinoString.ToIntOfDigits` | main.c++:94 | a run of digits followed by a non-digit converts to the number the digits denote |
| `ArduinoString.ToIntOfNegative` | main.c++:94 | a minus sign, a run of digits and a non-digit convert to the negated number |
| `ArduinoString.ToIntItoa` | main.c++:94 | `toInt` reads back the number `itoa` wrote, whatever non-digit text follows |
| `ArduinoString.ToIntWithoutDigits` | main.c++:94 | a text starting with no white space, sign or digit converts to 0 |
| `ArduinoString.StartsWith` | main.c++:91-106 | `startsWith`: the prefix is an initial segment of the text; every prefix test of `Commands.Interpret` uses it |
| `ArduinoString.EndsWith` | main.c++:99-105 | `endsWith`: the suffix is a final segment of the text; `Commands.LedLevel` states that `endsWith("1")` holds iff the last character is '1' |
| `ArduinoString.ToInt` | main.c++:94 | `toInt`, that is `atol`: `ArduinoString.SkipSpace` and `ArduinoString.DigitPrefix` state what it skips and reads, `ArduinoString.ToIntWithoutDigits` its 0 case and `ArduinoString.ToIntItoa` that it reads back `Itoa` |
| `ArduinoString.Itoa` | main.c++:161 | `itoa` in base 10: never empty; `ArduinoString.ValueOfDigits` states that its digits denote the number and `ArduinoString.ToIntItoa` that `ToInt` reads it back |

## Left out

- `connectWiFi` (main.c++:68-78): a blocking retry loop on the radio's vendor API.
- `ensureMqtt` retries and the broker's last will ("offline" on an unclean drop) (main.c++:123-142): network I/O in a foreign library. Only the order of actions after a successful connect is kept, in `Device.Board.OnBrokerConnected`.
- `mqtt.loop` (main.c++:234): delivering messages is the library's job. Each delivery is one call of `Device.Board.MessageCallback`.
- DHT reads and `dtostrf` (main.c++:146-155): floating point and a vendor library. A reading is either absent (NaN) or present as the text `dtostrf` produced.
- `analogRead` (main.c++:159): a raw hardware value. It is an input of `Readings`, formatted with `Itoa`.
- `tone`/`noTone`/`delay` timing (main.c++:114-119): the one-second durations are not modelled. Only the order of the outputs and the resulting pin levels are kept.
- The OLED drawing in `displayMessage` (main.c++:184-191): the model keeps only the text the display shows.
- `setup` (main.c++:193-223): pin modes, display start-up and the halt when it fails, Serial logging, and the client id from the eFuse MAC. `Device.Board.constructor` only gives the state the rest of the sketch starts from.
- Serial logging everywhere: it has no effect on behaviour.
- `ArduinoString.ToInt`: numbers outside the 32-bit `long` range are kept unbounded. `atol`'s result is undefined there, and `long` and `int` are both 32 bits on this target.
- `Device.ReadPayload`: a NUL byte inside a payload is kept as an ordinary character. The Arduino `String` comparisons stop at NUL, so such a payload could compare differently on the device.
- `Device.Board.ActivateBuzzerAndLED`: the frequency is kept as a signed `int`; `tone` takes it as `unsigned int`.
- `Device.Board.PublishReadings`: reading back an output pin with `digitalRead` is taken to return the level last written to it.
- `Timer.NextPublishAfterInterval`: stated only for passes less than 2^32 ms after the last publish. Beyond that window the test sees the gap modulo 2^32 (`Timer.StallSeenModuloWrap`), and only `Timer.NeverEarly` still holds.
