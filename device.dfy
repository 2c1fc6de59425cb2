/**
  The board's mutable state and the routines of the sketch that change it:
  the MQTT message callback, the buzzer alert, the publish of one set of
  readings and the periodic-publish step of `loop`.

  Outputs that leave the board (MQTT publishes and subscriptions, tone on and
  off, indicator writes) are recorded in order in `trace`; the pin levels and
  the text on the display are kept in fields.
 */
module Device {
  import opened Wrappers
  import opened ArduinoString
  import opened Commands
  import opened Timer

  newtype Byte = x: int | 0 <= x < 256

  /** The six button inputs as `digitalRead` returns them, BTN1 first; `true` is HIGH (released: they are pulled up). */
  type ButtonLevels = s: seq<bool> | |s| == 6 witness [true, true, true, true, true, true]

  /**
    One cycle's sensor values. A failed DHT read is `None`; a successful one is
    the text `dtostrf` made of it. `light` is the raw `analogRead` value.
   */
  datatype Readings = Readings(
    humidity: Option<string>,
    temperature: Option<string>,
    light: int,
    buttons: ButtonLevels)

  /** Output levels: the three indicators (`true` is HIGH) and whether the buzzer sounds. */
  datatype PinState = PinState(red: bool, green: bool, blue: bool, buzzer: bool)

  /** What the board does to the outside world. */
  datatype Output =
    | Publish(topic: string, payload: string, retained: bool)
    | Subscribe(topic: string)
    | ToneOn(freq: int)
    | ToneOff
    | Write(led: Led, high: bool)

  /** The text the callback builds from the payload bytes: one character per byte. */
  function PayloadString(bytes: seq<Byte>): string {
    seq(|bytes|, i requires 0 <= i < |bytes| => bytes[i] as char)
  }

  /** The byte-appending loop at the top of `messageCallback`. */
  method ReadPayload(payload: array<Byte>, length: nat) returns (msg: string)
    requires length <= payload.Length
    ensures |msg| == length
    ensures forall i :: 0 <= i < length ==> msg[i] as int == payload[i] as int
  {
    msg := "";
    var i := 0;
    while i < length
      invariant 0 <= i <= length
      invariant |msg| == i
      invariant forall k :: 0 <= k < i ==> msg[k] as int == payload[k] as int
    {
      msg := msg + [payload[i] as char];
      i := i + 1;
    }
  }

  function Flag(high: bool): string {
    if high then "1" else "0"
  }

  /** The button status text, appended button by button, BTN1 first: '1' for an input read LOW. */
  function ButtonMask(b: ButtonLevels): string {
    Flag(!b[0]) + Flag(!b[1]) + Flag(!b[2]) + Flag(!b[3]) + Flag(!b[4]) + Flag(!b[5])
  }

  /** The indicator status text, appended red, green, blue. */
  function LedMask(p: PinState): string {
    Flag(p.red) + Flag(p.green) + Flag(p.blue)
  }

  /** The `btnStatus` text of `publishReadings`, built by six appends. */
  method ButtonStatus(b: ButtonLevels) returns (s: string)
    ensures s == ButtonMask(b)
  {
    s := "";
    s := s + Flag(!b[0]);
    assert s == Flag(!b[0]);
    s := s + Flag(!b[1]);
    s := s + Flag(!b[2]);
    s := s + Flag(!b[3]);
    s := s + Flag(!b[4]);
    s := s + Flag(!b[5]);
  }

  /**
    The button text has six characters, each '0' or '1', and character i is
    '1' exactly when button i+1 reads LOW (pressed: the inputs are active-low).
   */
  lemma ButtonMaskActiveLow(b: ButtonLevels)
    ensures |ButtonMask(b)| == 6
    ensures forall i :: 0 <= i < 6 ==> ButtonMask(b)[i] in {'0', '1'}
    ensures forall i :: 0 <= i < 6 ==> (ButtonMask(b)[i] == '1' <==> !b[i])
  {
  }

  /** The indicator text has three characters, '1' for HIGH, in the order red, green, blue. */
  lemma LedMaskOrder(p: PinState)
    ensures |LedMask(p)| == 3
    ensures forall i :: 0 <= i < 3 ==> LedMask(p)[i] in {'0', '1'}
    ensures (LedMask(p)[0] == '1' <==> p.red) && (LedMask(p)[1] == '1' <==> p.green) && (LedMask(p)[2] == '1' <==> p.blue)
  {
  }

  /** What `publishReadings` publishes, given the readings and the indicator levels. */
  function Publications(r: Readings, p: PinState): seq<Output> {
    if r.humidity.None? || r.temperature.None? then []
    else
      [ Publish(TOPIC_TEMP, r.temperature.value, true),
        Publish(TOPIC_UMID, r.humidity.value, true),
        Publish(TOPIC_LDR, Itoa(r.light), true),
        Publish(TOPIC_BTN, ButtonMask(r.buttons), true),
        Publish(TOPIC_LED, LedMask(p), true) ]
  }

  /**
    A missing humidity or temperature suppresses all five publishes; otherwise
    temperature, humidity, light, buttons and indicators are published, in that
    order, all retained, with the light value written by `itoa` (which `toInt`
    reads back, `ToIntItoa`) and the button and indicator masks.
   */
  lemma ReadGate(r: Readings, p: PinState)
    ensures Publications(r, p) == [] <==> r.humidity.None? || r.temperature.None?
    ensures Publications(r, p) != [] ==>
      var out := Publications(r, p);
      && |out| == 5
      && (forall i :: 0 <= i < 5 ==> out[i].Publish? && out[i].retained)
      && [out[0].topic, out[1].topic, out[2].topic, out[3].topic, out[4].topic]
         == [TOPIC_TEMP, TOPIC_UMID, TOPIC_LDR, TOPIC_BTN, TOPIC_LED]
      && out[0].payload == r.temperature.value && out[1].payload == r.humidity.value
      && out[2].payload == Itoa(r.light)
      && out[3].payload == ButtonMask(r.buttons) && out[4].payload == LedMask(p)
  {
  }

  /** The indicator pins after one of them is written. */
  function SetPin(p: PinState, led: Led, high: bool): PinState {
    match led
    case Red => p.(red := high)
    case Green => p.(green := high)
    case Blue => p.(blue := high)
  }

  /** The outputs of `activateBuzzerAndLED`: the tone first, then red HIGH, then red LOW. */
  function AlertOutputs(freq: int): seq<Output> {
    [ToneOn(freq), ToneOff, Write(Red, true), Write(Red, false)]
  }

  /** The pin levels after a command has run. */
  function Effect(p: PinState, c: Command): PinState {
    match c
    case Buzzer(_) => p.(red := false, buzzer := false)
    case SetLed(led, on) => SetPin(p, led, on)
    case _ => p
  }

  /** The outputs a command sends, in order, when the pins start at `p`. */
  function Emitted(p: PinState, c: Command, r: Readings): seq<Output> {
    match c
    case PublishNow => Publications(r, p)
    case Buzzer(freq) => AlertOutputs(freq)
    case SetLed(led, on) => [Write(led, on)]
    case _ => []
  }

  /**
    An indicator command writes its own pin only: HIGH exactly when the text
    ends in '1', with the other two indicators and the buzzer left as they were.
   */
  lemma LedCommandWritesOnlyItsPin(msg: string, p: PinState, r: Readings)
    requires Interpret(msg).SetLed?
    ensures var on := |msg| > 0 && msg[|msg| - 1] == '1';
      && (StartsWith(msg, LED_RED) ==> Effect(p, Interpret(msg)) == p.(red := on))
      && (StartsWith(msg, LED_GREEN) ==> Effect(p, Interpret(msg)) == p.(green := on))
      && (StartsWith(msg, LED_BLUE) ==> Effect(p, Interpret(msg)) == p.(blue := on))
      && Emitted(p, Interpret(msg), r) == [Write(Interpret(msg).led, on)]
  {
    InterpretTable(msg);
    LedLevel(msg);
  }

  /**
    After a buzzer command the buzzer is silent and red is LOW whatever it was
    before; green and blue are untouched, and the tone ends before red goes HIGH.
   */
  lemma BuzzerAlertLeavesRedLow(msg: string, p: PinState, r: Readings)
    requires StartsWith(msg, BUZZER)
    ensures Effect(p, Interpret(msg)) == PinState(false, p.green, p.blue, false)
    ensures var out := Emitted(p, Interpret(msg), r);
      |out| == 4 && out[0] == ToneOn(Interpret(msg).freq) && out[1] == ToneOff
      && out[2] == Write(Red, true) && out[3] == Write(Red, false)
  {
    InterpretTable(msg);
  }

  /**
    A message on an unknown topic, or a text on the command topic that passes
    none of the tests, changes no pin and sends nothing.
   */
  lemma UnmatchedMessageChangesNothing(topic: string, msg: string, p: PinState, r: Readings)
    requires topic != TOPIC_MSG
    requires topic == TOPIC_CMD ==>
      msg != PUBLISH_NOW && !StartsWith(msg, BUZZER) && !StartsWith(msg, LED_RED)
      && !StartsWith(msg, LED_GREEN) && !StartsWith(msg, LED_BLUE)
    ensures Effect(p, Route(topic, msg)) == p
    ensures Emitted(p, Route(topic, msg), r) == []
  {
  }

  /** The board: its output levels, display text, publish time stamp and output history. */
  class Board {
    var red: bool
    var green: bool
    var blue: bool
    /** The frequency the buzzer pin is sounding, if any. */
    var tone: Option<int>
    /** The text on the OLED display. */
    var screen: string
    var lastPub: ULong
    var trace: seq<Output>

    function Pins(): PinState
      reads this
    {
      PinState(red, green, blue, tone.Some?)
    }

    /** The state before `setup` connects to the broker: outputs LOW, buzzer silent, blank display, `lastPub` 0. */
    constructor ()
      ensures Pins() == PinState(false, false, false, false)
      ensures screen == "" && lastPub == 0 && trace == []
    {
      red, green, blue := false, false, false;
      tone := None;
      screen := "";
      lastPub := 0;
      trace := [];
    }

    /** `digitalWrite` on one indicator pin. */
    method WriteLed(led: Led, high: bool)
      modifies this
      ensures Pins() == SetPin(old(Pins()), led, high) && tone == old(tone)
      ensures trace == old(trace) + [Write(led, high)]
      ensures screen == old(screen) && lastPub == old(lastPub)
    {
      trace := trace + [Write(led, high)];
      match led
      case Red => red := high;
      case Green => green := high;
      case Blue => blue := high;
    }

    /** `activateBuzzerAndLED`: sound the tone, stop it, then flash red HIGH and back LOW. */
    method ActivateBuzzerAndLED(freq: int)
      modifies this
      ensures Pins() == old(Pins()).(red := false, buzzer := false) && tone == None
      ensures trace == old(trace) + AlertOutputs(freq)
      ensures screen == old(screen) && lastPub == old(lastPub)
    {
      tone := Some(freq);
      trace := trace + [ToneOn(freq)];
      tone := None;
      trace := trace + [ToneOff];
      WriteLed(Red, true);
      WriteLed(Red, false);
    }

    /** `displayMessage`: the display shows exactly `msg`. */
    method DisplayMessage(msg: string)
      modifies this
      ensures screen == msg
      ensures Pins() == old(Pins()) && tone == old(tone) && trace == old(trace) && lastPub == old(lastPub)
    {
      screen := msg;
    }

    /** The `ledStatus` text of `publishReadings`, read back from the indicator pins. */
    method LedStatus() returns (s: string)
      ensures s == LedMask(Pins())
    {
      s := "";
      s := s + Flag(red);
      assert s == Flag(red);
      s := s + Flag(green);
      s := s + Flag(blue);
    }

    /**
      `publishReadings`: give up on a failed DHT read, otherwise publish the five
      values, building the two status texts by appending one flag at a time.
     */
    method PublishReadings(r: Readings)
      modifies this
      ensures trace == old(trace) + Publications(r, old(Pins()))
      ensures Pins() == old(Pins()) && tone == old(tone) && screen == old(screen) && lastPub == old(lastPub)
    {
      if r.humidity.None? || r.temperature.None? {
        return;
      }
      trace := trace + [Publish(TOPIC_TEMP, r.temperature.value, true)];
      trace := trace + [Publish(TOPIC_UMID, r.humidity.value, true)];
      trace := trace + [Publish(TOPIC_LDR, Itoa(r.light), true)];

      var btnStatus := ButtonStatus(r.buttons);
      trace := trace + [Publish(TOPIC_BTN, btnStatus, true)];
      var ledStatus := LedStatus();
      trace := trace + [Publish(TOPIC_LED, ledStatus, true)];
    }

    /** Carry out one decoded command. */
    method Apply(c: Command, r: Readings)
      modifies this
      ensures Pins() == Effect(old(Pins()), c)
      ensures trace == old(trace) + Emitted(old(Pins()), c, r)
      ensures tone == (if c.Buzzer? then None else old(tone))
      ensures screen == (if c.Display? then c.text else old(screen))
      ensures lastPub == old(lastPub)
    {
      match c
      case PublishNow => PublishReadings(r);
      case Buzzer(freq) => ActivateBuzzerAndLED(freq);
      case SetLed(led, on) => WriteLed(led, on);
      case Display(text) => DisplayMessage(text);
      case NoOp =>
    }

    /**
      `messageCallback`: rebuild the text from the payload bytes, route it by
      topic and carry out the command. `r` stands for what the sensors would
      read if the command asks for an immediate publish.
     */
    method MessageCallback(topic: string, payload: array<Byte>, length: nat, r: Readings)
      requires length <= payload.Length
      modifies this
      ensures Pins() == Effect(old(Pins()), Route(topic, PayloadString(payload[..length])))
      ensures trace == old(trace) + Emitted(old(Pins()), Route(topic, PayloadString(payload[..length])), r)
      ensures tone == (if Route(topic, PayloadString(payload[..length])).Buzzer? then None else old(tone))
      ensures screen == (if topic == TOPIC_MSG then PayloadString(payload[..length]) else old(screen))
      ensures lastPub == old(lastPub)
    {
      var msg := ReadPayload(payload, length);
      assert msg == PayloadString(payload[..length]);
      RouteByTopic(topic, msg);
      Apply(Route(topic, msg), r);
    }

    /** The timer step of `loop`: publish when ten seconds have passed since `lastPub`. */
    method Tick(now: ULong, r: Readings) returns (fired: bool)
      modifies this
      ensures fired == Due(now, old(lastPub))
      ensures lastPub == NextLastPub(old(lastPub), now)
      ensures trace == old(trace) + (if fired then Publications(r, old(Pins())) else [])
      ensures Pins() == old(Pins()) && tone == old(tone) && screen == old(screen)
    {
      fired := Minus(now, lastPub) >= PUB_INTERVAL_MS;
      if fired {
        lastPub := now;
        PublishReadings(r);
      }
    }

    /** What `ensureMqtt` does once the broker accepts the session. */
    method OnBrokerConnected()
      modifies this
      ensures trace == old(trace) + [Subscribe(TOPIC_CMD), Subscribe(TOPIC_MSG), Publish(TOPIC_STATUS, "online", true)]
      ensures Pins() == old(Pins()) && tone == old(tone) && screen == old(screen) && lastPub == old(lastPub)
    {
      trace := trace + [Subscribe(TOPIC_CMD)];
      trace := trace + [Subscribe(TOPIC_MSG)];
      trace := trace + [Publish(TOPIC_STATUS, "online", true)];
    }
  }
}
