/** The outbound half of the telemetry bridge: turning an LED command into a
    one-entry downlink envelope, rendering it as compact JSON, and handing it
    to the message-bus client as a single publish. The client is represented
    only by whether its publish call fails. */
module Sender {
  import opened Values
  import Base64

  /** The device's downlink "replace" topic. */
  const DownlinkTopic: string := "v3/end-device-test-1@ttn/devices/eui-0080e115000ad365/down/replace"

  /** Indexed by the command: entry 0 for off, entry 1 for on. */
  const LedCodes: seq<string> := ["AA==", "AQ=="]

  const LedPort: nat := 2
  const NormalPriority: string := "NORMAL"
  /** MQTT quality of service 0: at most once. */
  const AtMostOnce: nat := 0

  /** The payload chosen from the lookup table for a command. */
  function LedCode(state: bool): (code: string)
    ensures code == Base64.EncodeByte(if state then 1 else 0)
  {
    assert Base64.CharOf(0) == 'A' && Base64.CharOf(16) == 'Q';
    LedCodes[if state then 1 else 0]
  }

  /** The two commands get different payloads. */
  lemma LedCodeInjective(a: bool, b: bool)
    ensures LedCode(a) == LedCode(b) <==> a == b
  {
    Base64.EncodeInjective(if a then 1 else 0, if b then 1 else 0);
  }

  /** One entry of the `downlinks` array. */
  datatype Downlink = Downlink(fPort: nat, frmPayload: string, priority: string)

  /** The top-level object: its single key `downlinks` holds an array. */
  datatype Envelope = Envelope(downlinks: seq<Downlink>)

  /** The envelope built for an LED command. */
  function LedEnvelope(state: bool): (e: Envelope)
    ensures |e.downlinks| == 1
    ensures e.downlinks[0].fPort == 2 && e.downlinks[0].priority == "NORMAL"
    ensures Base64.DecodeByte(e.downlinks[0].frmPayload) == Some(if state then 1 else 0)
  {
    Base64.DecodeEncode(if state then 1 else 0);
    Envelope([Downlink(LedPort, LedCode(state), NormalPriority)])
  }

  /** JSON string escaping of the quote and backslash characters. */
  function Escape(s: string): (r: string)
    ensures |r| >= |s|
  {
    if s == [] then []
    else (if s[0] == '"' || s[0] == '\\' then ['\\', s[0]] else [s[0]]) + Escape(s[1..])
  }

  /** A string with nothing to escape. */
  predicate Plain(s: string)
  {
    forall i :: 0 <= i < |s| ==> s[i] != '"' && s[i] != '\\'
  }

  lemma {:induction false} EscapePlain(s: string)
    requires Plain(s)
    ensures Escape(s) == s
  {
    if s != [] {
      assert Plain(s[1..]);
      EscapePlain(s[1..]);
    }
  }

  function Quote(s: string): string
  {
    "\"" + Escape(s) + "\""
  }

  function DigitChar(d: nat): char
    requires d < 10
  {
    ('0' as int + d) as char
  }

  /** Decimal digits of a non-negative number, without leading zeros. */
  function NatText(n: nat): (r: string)
    ensures |r| >= 1
    decreases n
  {
    if n < 10 then [DigitChar(n)] else NatText(n / 10) + [DigitChar(n % 10)]
  }

  /** An entry as compact JSON, fields in insertion order. */
  function RenderDownlink(d: Downlink): string
  {
    "{\"f_port\":" + NatText(d.fPort)
      + ",\"frm_payload\":" + Quote(d.frmPayload)
      + ",\"priority\":" + Quote(d.priority) + "}"
  }

  /** Array elements separated by commas. */
  function RenderDownlinks(ds: seq<Downlink>): string
  {
    if ds == [] then ""
    else if |ds| == 1 then RenderDownlink(ds[0])
    else RenderDownlink(ds[0]) + "," + RenderDownlinks(ds[1..])
  }

  /** The envelope as compact JSON text. */
  function Render(e: Envelope): string
  {
    "{\"downlinks\":[" + RenderDownlinks(e.downlinks) + "]}"
  }

  /** The rendered text around the payload of an LED command. */
  const Head: string := "{\"downlinks\":[{\"f_port\":2,\"frm_payload\":\""
  const Tail: string := "\",\"priority\":\"NORMAL\"}]}"

  lemma LedCodePlain(state: bool)
    ensures Plain(LedCode(state))
  {
  }

  lemma QuotePlain(s: string)
    requires Plain(s)
    ensures Quote(s) == "\"" + s + "\""
  {
    EscapePlain(s);
  }

  /** An envelope holding one port-2, normal-priority entry renders as the
      fixed frame around its payload. */
  lemma RenderFrame(code: string)
    requires Plain(code)
    ensures Render(Envelope([Downlink(LedPort, code, NormalPriority)])) == Head + code + Tail
  {
    var d := Downlink(LedPort, code, NormalPriority);
    QuotePlain(code);
    QuotePlain(NormalPriority);
    assert NatText(LedPort) == "2";
    assert RenderDownlink(d) == "{\"f_port\":" + "2" + ",\"frm_payload\":" + ("\"" + code + "\"")
      + ",\"priority\":" + "\"NORMAL\"" + "}";
    assert RenderDownlinks([d]) == RenderDownlink(d);
    FrameConcat(code);
  }

  /* FrameConcat, HeadParts, TailParts and Reassociate only split the
     equality between the rendered text and Head + code + Tail into small
     steps: one literal-splitting fact per constant and one associativity
     fact over plain sequences, which keeps the string-literal proof stable
     across solver seeds. */
  lemma FrameConcat(code: string)
    ensures "{\"downlinks\":[" + ("{\"f_port\":" + "2" + ",\"frm_payload\":" + ("\"" + code + "\"")
      + ",\"priority\":" + "\"NORMAL\"" + "}") + "]}" == Head + code + Tail
  {
    HeadParts();
    TailParts();
    Reassociate("{\"downlinks\":[", "{\"f_port\":", "2", ",\"frm_payload\":", "\"", code,
      ",\"priority\":", "\"NORMAL\"", "}", "]}");
  }

  lemma HeadParts()
    ensures Head == "{\"downlinks\":[" + "{\"f_port\":" + "2" + ",\"frm_payload\":" + "\""
  {
  }

  lemma TailParts()
    ensures Tail == "\"" + ",\"priority\":" + "\"NORMAL\"" + "}" + "]}"
  {
  }

  lemma Reassociate<T>(a: seq<T>, b: seq<T>, n: seq<T>, c: seq<T>, q: seq<T>, code: seq<T>,
                       d: seq<T>, e: seq<T>, r: seq<T>, s: seq<T>)
    ensures a + (b + n + c + (q + code + q) + d + e + r) + s
         == (a + b + n + c + q) + code + (q + d + e + r + s)
  {
  }

  /** The text of an LED command is the fixed frame around its table entry. */
  lemma RenderLedEnvelope(state: bool)
    ensures Render(LedEnvelope(state)) == Head + LedCode(state) + Tail
  {
    LedCodePlain(state);
    RenderFrame(LedCode(state));
  }

  /** The exact serialised text for each command. */
  lemma LedText(state: bool)
    ensures Render(LedEnvelope(state)) ==
      "{\"downlinks\":[{\"f_port\":2,\"frm_payload\":\""
      + (if state then "AQ==" else "AA==")
      + "\",\"priority\":\"NORMAL\"}]}"
  {
    RenderLedEnvelope(state);
  }

  /** Reads an LED command back from downlink text: the fixed frame around a
      payload that decodes to the byte 0 or 1. */
  function DecodeLedCommand(text: string): Option<bool>
  {
    if |text| < |Head| + |Tail| || text[..|Head|] != Head || text[|text| - |Tail|..] != Tail then None
    else match Base64.DecodeByte(text[|Head|..|text| - |Tail|])
      case Some(0) => Some(false)
      case Some(1) => Some(true)
      case _ => None
  }

  /** The three parts of a framed text are recovered by slicing. */
  lemma FrameSlices(h: string, c: string, t: string)
    ensures var text := h + c + t;
      && text[..|h|] == h
      && text[|text| - |t|..] == t
      && text[|h|..|text| - |t|] == c
  {
  }

  /** A text at least as long as a frame splits into head, middle and tail. */
  lemma FrameSplit(text: string, hn: nat, tn: nat)
    requires hn + tn <= |text|
    ensures text == text[..hn] + text[hn..|text| - tn] + text[|text| - tn..]
  {
  }

  /** The serialised text of an LED command decodes to that command. */
  lemma DecodeRendered(state: bool)
    ensures DecodeLedCommand(Render(LedEnvelope(state))) == Some(state)
  {
    RenderLedEnvelope(state);
    FrameSlices(Head, LedCode(state), Tail);
    Base64.DecodeEncode(if state then 1 else 0);
  }

  /** The only text that decodes to a command is that command's text. */
  lemma DecodedIsRendered(text: string, state: bool)
    requires DecodeLedCommand(text) == Some(state)
    ensures text == Render(LedEnvelope(state))
  {
    var b := if state then 1 else 0;
    var middle := text[|Head|..|text| - |Tail|];
    assert Base64.DecodeByte(middle) == Some(b);
    Base64.DecodeByteIff(middle, b);
    FrameSplit(text, |Head|, |Tail|);
    RenderLedEnvelope(state);
  }

  /** The serialised text of an LED command decodes to that command, and it is
      the only text that does. */
  lemma DecodeLedText(text: string, state: bool)
    ensures DecodeLedCommand(text) == Some(state) <==> text == Render(LedEnvelope(state))
  {
    if text == Render(LedEnvelope(state)) {
      DecodeRendered(state);
    }
    if DecodeLedCommand(text) == Some(state) {
      DecodedIsRendered(text, state);
    }
  }

  /** One MQTT publish: topic, payload text, QoS and retained flag. The payload
      text is ASCII, so its bytes are its characters. */
  datatype Message = Message(topic: string, payload: string, qos: nat, retained: bool)

  /** Whether the bus client's publish call completes or throws. */
  datatype Transport = Delivering | Failing

  datatype SendResult = Published(message: Message) | PublishFailed

  /** Builds the LED downlink and publishes it once, retained, at most once,
      to the downlink topic. A failing publish surfaces as a failure. */
  function SendLedDownlink(state: bool, transport: Transport): (r: SendResult)
    ensures r.PublishFailed? <==> transport == Failing
    ensures r.Published? ==>
      && r.message.topic == DownlinkTopic
      && r.message.qos == 0
      && r.message.retained
      && DecodeLedCommand(r.message.payload) == Some(state)
  {
    DecodeLedText(Render(LedEnvelope(state)), state);
    match transport
    case Failing => PublishFailed
    case Delivering => Published(Message(DownlinkTopic, Render(LedEnvelope(state)), AtMostOnce, true))
  }
}
