/** The message published each cycle: the command's output, optionally base64
    encoded, in a three-field envelope (`piAliveMsg`). */
module Message {
  import opened GoTypes
  import opened Configuration
  import Base64

  /** What running the command gave: its stdout bytes and, when `e != nil`,
      the text of `e.Error()`. */
  datatype CommandResult = CommandResult(stdout: GoString, err: Option<GoString>)

  /** The output text before encoding: stdout with the error text appended
      directly, without a delimiter. */
  function RawOutput(r: CommandResult): GoString {
    if r.err.Some? then r.stdout + r.err.value else r.stdout
  }

  /** The output field after the optional `base64.StdEncoding.EncodeToString`. */
  function EncodeOutput(raw: GoString, encode: bool): GoString {
    if encode then Base64.Encode(raw) else raw
  }

  /** With the flag off the output is kept; with it on, the field is a padded
      base 64 text of 4·⌈n/3⌉ characters that decodes to exactly the output. */
  lemma EncodedOutput(raw: GoString, encode: bool)
    ensures var out := EncodeOutput(raw, encode);
      (!encode ==> out == raw) &&
      (encode ==> Base64.Decode(out) == Some(raw)) &&
      (encode ==> |out| == 4 * ((|raw| + 2) / 3)) &&
      (encode ==> Base64.PaddedText(out, Base64.PadCount(|raw|)))
  {
    if encode {
      Base64.DecodeEncode(raw);
      Base64.EncodeShape(raw);
      Base64.EncodeLength(raw);
    }
  }

  /** The `piAliveMsg` struct. */
  datatype Envelope = Envelope(cmdOutput: GoString, command: GoString, ts: GoString)

  /** The JSON keys of the three fields (the `json` struct tags). */
  function CmdOutputKey(): (k: GoString) ensures |k| == 9 { Ascii("cmdOutput") }
  function CommandKey(): (k: GoString) ensures |k| == 7 { Ascii("command") }
  function TsKey(): (k: GoString) ensures |k| == 2 { Ascii("ts") }

  /** The value under key k in a list of JSON members, the first one if several. */
  function Lookup(members: seq<(GoString, GoString)>, k: GoString): Option<GoString>
    decreases |members|
  {
    if |members| == 0 then None
    else if members[0].0 == k then Some(members[0].1)
    else Lookup(members[1..], k)
  }

  /** The members `json.Marshal` writes for an envelope, in struct order. Character
      escaping is not modelled: keys and values are the raw strings. */
  function Members(e: Envelope): (m: seq<(GoString, GoString)>)
    ensures |m| == 3
    ensures forall i, j | 0 <= i < j < |m| :: m[i].0 != m[j].0
    ensures forall k :: Lookup(m, k).Some? <==> k == CmdOutputKey() || k == CommandKey() || k == TsKey()
    ensures Lookup(m, CmdOutputKey()) == Some(e.cmdOutput)
    ensures Lookup(m, CommandKey()) == Some(e.command)
    ensures Lookup(m, TsKey()) == Some(e.ts)
  {
    var k1, k2, k3 := CmdOutputKey(), CommandKey(), TsKey();
    assert |k1| == 9 && |k2| == 7 && |k3| == 2;
    LookupThree(k1, e.cmdOutput, k2, e.command, k3, e.ts);
    [(k1, e.cmdOutput), (k2, e.command), (k3, e.ts)]
  }

  /** Looking a key up in three members finds the first member with that key. */
  lemma LookupThree(k1: GoString, v1: GoString, k2: GoString, v2: GoString, k3: GoString, v3: GoString)
    ensures forall k :: Lookup([(k1, v1), (k2, v2), (k3, v3)], k) ==
                        if k == k1 then Some(v1) else if k == k2 then Some(v2) else if k == k3 then Some(v3) else None
  {
    var m: seq<(GoString, GoString)> := [(k1, v1), (k2, v2), (k3, v3)];
    assert m[1..] == [(k2, v2), (k3, v3)];
    assert m[1..][1..] == [(k3, v3)];
    assert m[1..][1..][1..] == [];
    forall k
      ensures Lookup(m, k) ==
        if k == k1 then Some(v1) else if k == k2 then Some(v2) else if k == k3 then Some(v3) else None
    {
      assert Lookup(m[1..][1..], k) == if k == k3 then Some(v3) else None;
      assert Lookup(m[1..], k) == if k == k2 then Some(v2) else Lookup(m[1..][1..], k);
    }
  }

  /** One cycle's envelope, from the command's result and the timestamp text. */
  function BuildEnvelope(cfg: Config, r: CommandResult, ts: GoString): Envelope {
    Envelope(EncodeOutput(RawOutput(r), cfg.base64Encode), cfg.command, ts)
  }

  /** The output field: the raw output itself when encoding is off, and a text
      that decodes to exactly the raw output when it is on. The command field
      is the configured command verbatim, the timestamp the given one. */
  lemma EnvelopeFields(cfg: Config, r: CommandResult, ts: GoString)
    ensures var e := BuildEnvelope(cfg, r, ts);
      e.command == cfg.command && e.ts == ts &&
      (!cfg.base64Encode ==> e.cmdOutput == RawOutput(r)) &&
      (cfg.base64Encode ==> Base64.Decode(e.cmdOutput) == Some(RawOutput(r)))
  {
    EncodedOutput(RawOutput(r), cfg.base64Encode);
  }

  /** The error text is appended to whatever stdout held: stdout is a prefix of
      the raw output and the error text is all that follows it. */
  lemma RawOutputSplits(r: CommandResult)
    ensures var out := RawOutput(r);
      |r.stdout| <= |out| && out[..|r.stdout|] == r.stdout &&
      (r.err.None? ==> out == r.stdout) &&
      (r.err.Some? ==> out[|r.stdout|..] == r.err.value)
  {
  }

  /** A failing command with empty stdout and error "boom" publishes "boom". */
  lemma BoomScenario(cfg: Config, ts: GoString)
    requires !cfg.base64Encode
    ensures BuildEnvelope(cfg, CommandResult([], Some(Ascii("boom"))), ts).cmdOutput == Ascii("boom")
  {
    assert [] + Ascii("boom") == Ascii("boom");
  }

  /** `echo hi` with encoding off publishes its output "hi\n" unchanged. */
  lemma EchoScenario(cfg: Config, ts: GoString)
    requires cfg.command == Ascii("echo hi") && !cfg.base64Encode
    ensures BuildEnvelope(cfg, CommandResult(Ascii("hi\n"), None), ts)
      == Envelope(Ascii("hi\n"), Ascii("echo hi"), ts)
  {
  }
}
