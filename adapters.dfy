/** The Anthropic and OpenAI streaming adapters (src/call-ai-claude.ts, src/call-ai-gpt.ts):
    the request settings each one chooses, and the packets it yields for a given reply
    stream. The request itself is not modelled; the reply is a sequence of chunk steps,
    and `JSON.parse` is the oracle `parse`. */
module Adapters {
  import opened Wrappers
  import opened Json
  import opened Strings
  import opened Edits
  import opened Streams

  const Sonnet: string := "claude-3-5-sonnet-20240620"

  /** The text the Anthropic reply is seeded with, and that the accumulated text starts
      with. */
  const ClaudeStart: string := "["

  /** `max_tokens` of the Anthropic request: the larger limit only for the sonnet model. */
  function ClaudeMaxTokens(model: string): (r: nat)
    ensures r == 8192 || r == 4096
    ensures r == 8192 <==> model == Sonnet
  {
    if model == Sonnet then 8192 else 4096
  }

  /** Every packet the Anthropic adapter yields: the edits validated after every chunk
      but the last, then one terminal packet deciding on `"["` plus the text deltas. */
  function ClaudeStream(steps: seq<Step>, parse: string -> Option<Json>): seq<Packet>
  {
    EditPackets(Flushed(steps, ParseEdit)) + [ParsedOrError(parse(ClaudeStart + Texts(steps)))]
  }

  /** `getAIEditsFromClaude`. Chunks that are not text deltas are steps with no text.
      `echo` is what the explanation echo prints. */
  method GetAIEditsFromClaude(model: string, steps: seq<Step>, parse: string -> Option<Json>)
    returns (maxTokens: nat, packets: seq<Packet>, marks: seq<nat>, echo: string)
    ensures maxTokens == 8192 <==> model == Sonnet
    ensures maxTokens == 8192 || maxTokens == 4096
    ensures packets == ClaudeStream(steps, parse)
    ensures |marks| == |steps| && forall i :: 0 <= i < |steps| ==> marks[i] == |Collected(steps[..i], ParseEdit)|
    ensures echo == EchoRun(NotStarted, steps).1
  {
    maxTokens := ClaudeMaxTokens(model);
    var full, flushed, collected;
    full, flushed, collected, marks, echo := RunChunks(steps, ClaudeStart, ParseEdit, true);
    var last := ParsedOrError(parse(full));
    packets := flushed + [last];
  }

  /** The Anthropic stream ends with exactly one terminal packet: the parsed full text
      when `"["` followed by the text deltas parses, an error otherwise. The packets
      before it are the validated edits of every chunk but the last, in order. */
  lemma ClaudeEndsOnce(steps: seq<Step>, parse: string -> Option<Json>)
    ensures EndsOnce(ClaudeStream(steps, parse))
    ensures |ClaudeStream(steps, parse)| == |Flushed(steps, ParseEdit)| + 1
    ensures forall k :: 0 <= k < |Flushed(steps, ParseEdit)| ==>
      ClaudeStream(steps, parse)[k] == EditPacket(Flushed(steps, ParseEdit)[k])
    ensures var last := ClaudeStream(steps, parse)[|Flushed(steps, ParseEdit)|];
      (last.AllEdits? <==> parse(ClaudeStart + Texts(steps)).Some?) &&
      (last.AllEdits? ==> parse(ClaudeStart + Texts(steps)) == Some(last.edits))
  {
    EndsOnceAfterEdits(Flushed(steps, ParseEdit), ParsedOrError(parse(ClaudeStart + Texts(steps))));
  }

  /** A candidate that fails `EditSchema` changes nothing the Anthropic adapter yields. */
  lemma ClaudeIgnoresInvalidCandidate(steps: seq<Step>, i: nat, a: seq<Json>, j: Json, b: seq<Json>,
                                      parse: string -> Option<Json>)
    requires i < |steps| && steps[i].found == a + [j] + b && ParseEdit(j).None?
    ensures ClaudeStream(steps[i := steps[i].(found := a + b)], parse) == ClaudeStream(steps, parse)
  {
    InvalidCandidateNoEffect(steps, i, a, j, b, ParseEdit);
  }

  /** `max_tokens` of the OpenAI request. */
  function GptMaxTokens(model: string): (r: nat)
    ensures r == 16384 || r == 4096
    ensures r == 16384 <==> Includes(model, "mini")
  {
    if Includes(model, "mini") then 16384 else 4096
  }

  /** The role the code message is sent with. */
  function CodeRole(model: string): (r: string)
    ensures r == "system" || r == "user"
    ensures r == "system" <==> Includes(model, "o1")
  {
    if Includes(model, "o1") then "system" else "user"
  }

  /** Every packet the OpenAI adapter yields: the validated edits found under `edits`
      after every chunk but the last, then one terminal packet deciding on the
      concatenated contents. */
  function GptStream(steps: seq<Step>, parse: string -> Option<Json>): seq<Packet>
  {
    EditPackets(Flushed(steps, ParseEdit)) + [EditsOrError(parse(Texts(steps)))]
  }

  /** `getAIEditsFromGPT`. A chunk without `content` is a step with no text, which has the
      same effect as the empty string the source reads it as (`EmptyChunkIsNoChunk`). The
      candidates of a step are those the parser completed under `edits`. */
  method GetAIEditsFromGPT(model: string, steps: seq<Step>, parse: string -> Option<Json>)
    returns (maxTokens: nat, codeRole: string, packets: seq<Packet>, marks: seq<nat>, echo: string)
    ensures maxTokens == 16384 <==> Includes(model, "mini")
    ensures codeRole == "system" <==> Includes(model, "o1")
    ensures packets == GptStream(steps, parse)
    ensures |marks| == |steps| && forall i :: 0 <= i < |steps| ==> marks[i] == |Collected(steps[..i], ParseEdit)|
    ensures echo == EchoRun(NotStarted, steps).1
  {
    codeRole := CodeRole(model);
    maxTokens := GptMaxTokens(model);
    var full, flushed, collected;
    full, flushed, collected, marks, echo := RunChunks(steps, "", ParseEdit, true);
    assert full == Texts(steps);
    var last := EditsOrError(parse(full));
    packets := flushed + [last];
  }

  /** The OpenAI stream ends with exactly one terminal packet: the `edits` of the parsed
      text, or `[]` when that is absent or falsy; an error when the text does not parse
      or parses to `null`. */
  lemma GptEndsOnce(steps: seq<Step>, parse: string -> Option<Json>)
    ensures EndsOnce(GptStream(steps, parse))
    ensures forall k :: 0 <= k < |Flushed(steps, ParseEdit)| ==>
      GptStream(steps, parse)[k] == EditPacket(Flushed(steps, ParseEdit)[k])
    ensures var last := GptStream(steps, parse)[|Flushed(steps, ParseEdit)|];
      (last.AllEdits? <==> parse(Texts(steps)).Some? && parse(Texts(steps)).value != JNull) &&
      (last.AllEdits? ==> last.edits == JArr([]) || Field(parse(Texts(steps)).value, "edits") == Some(last.edits))
  {
    EndsOnceAfterEdits(Flushed(steps, ParseEdit), EditsOrError(parse(Texts(steps))));
  }

  /** A candidate that fails `EditSchema` changes nothing the OpenAI adapter yields. */
  lemma GptIgnoresInvalidCandidate(steps: seq<Step>, i: nat, a: seq<Json>, j: Json, b: seq<Json>,
                                   parse: string -> Option<Json>)
    requires i < |steps| && steps[i].found == a + [j] + b && ParseEdit(j).None?
    ensures GptStream(steps[i := steps[i].(found := a + b)], parse) == GptStream(steps, parse)
  {
    InvalidCandidateNoEffect(steps, i, a, j, b, ParseEdit);
  }
}
