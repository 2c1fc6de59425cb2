/**
  Inbound message dispatch: which topic a message arrived on, and what the
  text on the command topic asks the board to do. Decoding is pure; what a
  command does to the pins is in module Board.
 */
module Commands {
  import opened ArduinoString

  const TOPIC_TEMP: string := "IFCE_Iran/temperatura"
  const TOPIC_UMID: string := "IFCE_Iran/umidade"
  const TOPIC_LDR: string := "IFCE_Iran/ldr"
  const TOPIC_BTN: string := "IFCE_Iran/botoes"
  const TOPIC_LED: string := "IFCE_Iran/leds"
  const TOPIC_CMD: string := "IFCE_Iran/cmd"
  const TOPIC_STATUS: string := "IFCE_Iran/status"
  const TOPIC_MSG: string := "IFCE_Iran/msg"

  /** Frequency of the alert when the buzzer command carries none. */
  const DEFAULT_BUZZER_HZ: int := 400
  /**
    Where the callback starts reading the buzzer frequency: index 7, so the
    character right after "buzzer" (index 6) is skipped.
   */
  const FREQ_OFFSET: nat := 7

  const PUBLISH_NOW: string := "publish_now"
  const BUZZER: string := "buzzer"
  const LED_RED: string := "led_vermelho"
  const LED_GREEN: string := "led_verde"
  const LED_BLUE: string := "led_azul"

  /** The three single-colour indicator outputs. */
  datatype Led = Red | Green | Blue

  /** What one inbound message asks the board to do. */
  datatype Command =
    | PublishNow
    | Buzzer(freq: int)
    | SetLed(led: Led, on: bool)
    | Display(text: string)
    | NoOp

  /** The command prefix that selects an indicator. */
  function LedPrefix(led: Led): string {
    match led
    case Red => LED_RED
    case Green => LED_GREEN
    case Blue => LED_BLUE
  }

  /** The decision chain of the callback for a message on the command topic. */
  function Interpret(msg: string): Command {
    if msg == PUBLISH_NOW then PublishNow
    else if StartsWith(msg, BUZZER) then
      Buzzer(if |msg| > FREQ_OFFSET then ToInt(msg[FREQ_OFFSET..]) else DEFAULT_BUZZER_HZ)
    else if StartsWith(msg, LED_RED) then SetLed(Red, EndsWith(msg, "1"))
    else if StartsWith(msg, LED_GREEN) then SetLed(Green, EndsWith(msg, "1"))
    else if StartsWith(msg, LED_BLUE) then SetLed(Blue, EndsWith(msg, "1"))
    else NoOp
  }

  /** `messageCallback`'s routing: exact topic match, then the command chain. */
  function Route(topic: string, msg: string): Command {
    if topic == TOPIC_CMD then Interpret(msg)
    else if topic == TOPIC_MSG then Display(msg)
    else NoOp
  }

  /**
    The command topic goes to the interpreter, the message topic to the display
    with the text unchanged, and every other topic is ignored; only the message
    topic ever reaches the display.
   */
  lemma RouteByTopic(topic: string, msg: string)
    ensures topic == TOPIC_CMD ==> Route(topic, msg) == Interpret(msg)
    ensures topic == TOPIC_MSG ==> Route(topic, msg) == Display(msg)
    ensures topic != TOPIC_CMD && topic != TOPIC_MSG ==> Route(topic, msg) == NoOp
    ensures Route(topic, msg).Display? <==> topic == TOPIC_MSG
  {
  }

  /** No text starts with two different command prefixes. */
  lemma PrefixesExclusive(msg: string)
    ensures msg == PUBLISH_NOW ==> !StartsWith(msg, BUZZER)
    ensures msg == PUBLISH_NOW ==> !StartsWith(msg, LED_RED) && !StartsWith(msg, LED_GREEN) && !StartsWith(msg, LED_BLUE)
    ensures StartsWith(msg, BUZZER) ==> !StartsWith(msg, LED_RED) && !StartsWith(msg, LED_GREEN) && !StartsWith(msg, LED_BLUE)
    ensures StartsWith(msg, LED_RED) ==> !StartsWith(msg, LED_GREEN) && !StartsWith(msg, LED_BLUE)
    ensures StartsWith(msg, LED_GREEN) ==> !StartsWith(msg, LED_BLUE)
  {
    if msg == PUBLISH_NOW { assert msg[0] == 'p'; }
    if StartsWith(msg, BUZZER) { assert msg[0] == 'b'; }
    if StartsWith(msg, LED_RED) { assert msg[7] == 'm' && msg[4] == 'v'; }
    if StartsWith(msg, LED_GREEN) { assert msg[4] == 'v'; }
  }

  /**
    The decision table: each command is chosen exactly when its test holds
    (exact `publish_now`, then the four prefixes), and a text that passes none
    of the tests is ignored.
   */
  lemma InterpretTable(msg: string)
    ensures Interpret(msg) == PublishNow <==> msg == PUBLISH_NOW
    ensures Interpret(msg).Buzzer? <==> StartsWith(msg, BUZZER)
    ensures (Interpret(msg).SetLed? && Interpret(msg).led == Red) <==> StartsWith(msg, LED_RED)
    ensures (Interpret(msg).SetLed? && Interpret(msg).led == Green) <==> StartsWith(msg, LED_GREEN)
    ensures (Interpret(msg).SetLed? && Interpret(msg).led == Blue) <==> StartsWith(msg, LED_BLUE)
    ensures Interpret(msg) == NoOp <==>
      msg != PUBLISH_NOW && !StartsWith(msg, BUZZER) && !StartsWith(msg, LED_RED)
      && !StartsWith(msg, LED_GREEN) && !StartsWith(msg, LED_BLUE)
    ensures !Interpret(msg).Display?
  {
    PrefixesExclusive(msg);
  }

  /**
    A buzzer command reads its frequency from index 7 on, skipping the character
    right after "buzzer"; when nothing is there the default 400 Hz is used.
   */
  lemma BuzzerFrequency(msg: string)
    requires StartsWith(msg, BUZZER)
    ensures |msg| <= FREQ_OFFSET ==> Interpret(msg) == Buzzer(DEFAULT_BUZZER_HZ)
    ensures |msg| > FREQ_OFFSET ==> Interpret(msg) == Buzzer(ToInt(msg[FREQ_OFFSET..]))
  {
    PrefixesExclusive(msg);
  }

  /**
    A frequency written after "buzzer" and one separator character is read
    back exactly, and so is anything after it that does not begin with a digit.
   */
  lemma BuzzerRoundTrip(sep: char, freq: int, rest: string)
    requires rest == [] || !IsDigit(rest[0])
    ensures Interpret(BUZZER + [sep] + Itoa(freq) + rest) == Buzzer(freq)
  {
    var msg := BUZZER + [sep] + Itoa(freq) + rest;
    assert msg[..|BUZZER|] == BUZZER;
    assert msg[FREQ_OFFSET..] == Itoa(freq) + rest;
    ToIntItoa(freq, rest);
    BuzzerFrequency(msg);
  }

  /** The fixed offset as it behaves: "buzzer250" sounds 50 Hz, not 250 Hz. */
  lemma BuzzerSkipsSeventhCharacter()
    ensures Interpret("buzzer250") == Buzzer(50)
  {
    var msg := BUZZER + ['2'] + Itoa(50) + [];
    assert msg == "buzzer250" by {
      assert Itoa(50) == "50" by {
        assert Digits(50) == Digits(5) + [DigitChar(0)];
      }
    }
    BuzzerRoundTrip('2', 50, []);
  }

  /** With a separator after "buzzer" the whole number is read: "buzzer:250" sounds 250 Hz. */
  lemma BuzzerWithSeparator()
    ensures Interpret("buzzer:250") == Buzzer(250)
  {
    var msg := BUZZER + [':'] + Itoa(250) + [];
    assert msg == "buzzer:250" by {
      assert Itoa(250) == "250" by {
        assert Digits(250) == Digits(25) + [DigitChar(0)];
        assert Digits(25) == Digits(2) + [DigitChar(5)];
      }
    }
    BuzzerRoundTrip(':', 250, []);
  }

  /** "buzzer" and "buzzerX" carry no frequency and sound the default 400 Hz. */
  lemma BuzzerDefaultExamples()
    ensures Interpret("buzzer") == Buzzer(400)
    ensures Interpret("buzzerX") == Buzzer(400)
  {
  }

  /**
    An indicator command addresses the indicator named by its prefix and turns
    it on exactly when the text ends in '1'.
   */
  lemma LedLevel(msg: string)
    requires Interpret(msg).SetLed?
    ensures StartsWith(msg, LedPrefix(Interpret(msg).led))
    ensures Interpret(msg).on <==> |msg| > 0 && msg[|msg| - 1] == '1'
  {
  }

  /** "led_<colour>" followed by anything and a final '0' or '1' sets that indicator to that level. */
  lemma LedRoundTrip(led: Led, middle: string, on: bool)
    ensures Interpret(LedPrefix(led) + middle + [if on then '1' else '0']) == SetLed(led, on)
  {
    var msg := LedPrefix(led) + middle + [if on then '1' else '0'];
    assert msg[..|LedPrefix(led)|] == LedPrefix(led);
    InterpretTable(msg);
    LedLevel(msg);
  }
}
