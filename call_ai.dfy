/** The older Anthropic adapter with continuation (src/call-ai.ts). When its full text
    does not parse but some edits were collected, it calls the model again, up to
    `maxCalls` more times, seeding each call with the text accumulated so far, and
    forwards the new call's packets, skipping edits it has already collected. Each call's
    reply is a sequence of chunk steps; `JSON.parse` is the oracle `parse`. */
module Continuation {
  import opened Wrappers
  import opened Json
  import opened Edits
  import opened Streams

  /** `collectedJSON ?? "["`: the text a call is seeded with. */
  function JsonStart(collectedJSON: Option<string>): string
  {
    match collectedJSON
    case None => "["
    case Some(s) => s
  }

  /** How many more calls `maxCalls` allows. */
  function Budget(maxCalls: int): nat
  {
    if maxCalls > 0 then maxCalls else 0
  }

  /** Two edits are the same when their file and their serialised change agree. */
  predicate SameEdit(a: Edit, b: Edit)
  {
    a.filename == b.filename && a.change == b.change
  }

  /** `collectedEdits.find(...)` succeeds. */
  predicate Seen(collected: seq<Edit>, e: Edit)
  {
    exists k :: 0 <= k < |collected| && SameEdit(collected[k], e)
  }

  /** The forwarding loop over a continuation's packets: the packets forwarded, and the
      collected edits afterwards. */
  function Dedup(collected: seq<Edit>, ps: seq<Packet>): (seq<Packet>, seq<Edit>)
  {
    if ps == [] then ([], collected)
    else
      var (out, c) := Dedup(collected, ps[..|ps| - 1]);
      var p := ps[|ps| - 1];
      if p.EditPacket? then
        if Seen(c, p.edit) then (out, c) else (out + [p], c + [p.edit])
      else (out + [p], c)
  }

  /** The call continues when its text does not parse, it collected some edits and
      calls remain. */
  predicate Continues(steps: seq<Step>, full: string, maxCalls: int, parse: string -> Option<Json>)
  {
    parse(full).None? && |Collected(steps, ParseLegacyEdit)| > 0 && maxCalls > 0
  }

  /** Every packet of the call with index `k` of the replies `calls`, seeded with
      `start`, allowed `maxCalls` further calls. */
  function CallAI(calls: seq<seq<Step>>, k: nat, maxCalls: int, start: string, parse: string -> Option<Json>): seq<Packet>
    requires k + Budget(maxCalls) < |calls|
    decreases Budget(maxCalls)
  {
    var steps := calls[k];
    var full := start + Texts(steps);
    var flushed := EditPackets(Flushed(steps, ParseLegacyEdit));
    if Continues(steps, full, maxCalls, parse) then
      flushed + Dedup(Collected(steps, ParseLegacyEdit), CallAI(calls, k + 1, maxCalls - 1, full, parse)).0
    else flushed + [ParsedOrError(parse(full))]
  }

  /** How many calls are made in all. */
  function Calls(calls: seq<seq<Step>>, k: nat, maxCalls: int, start: string, parse: string -> Option<Json>): (n: nat)
    requires k + Budget(maxCalls) < |calls|
    ensures 1 <= n <= Budget(maxCalls) + 1
    decreases Budget(maxCalls)
  {
    var steps := calls[k];
    var full := start + Texts(steps);
    if Continues(steps, full, maxCalls, parse) then
      1 + Calls(calls, k + 1, maxCalls - 1, full, parse)
    else 1
  }

  /** The text the last call made ends with, its own text included. */
  function FinalText(calls: seq<seq<Step>>, k: nat, maxCalls: int, start: string, parse: string -> Option<Json>): string
    requires k + Budget(maxCalls) < |calls|
    decreases Budget(maxCalls)
  {
    var full := start + Texts(calls[k]);
    if Continues(calls[k], full, maxCalls, parse) then FinalText(calls, k + 1, maxCalls - 1, full, parse) else full
  }

  /** The text the `d`-th continuation ends with: `start`, then the text of the calls
      `k` to `k + d`. */
  function Accumulated(calls: seq<seq<Step>>, k: nat, d: nat, start: string): string
    requires k + d < |calls|
    decreases d
  {
    if d == 0 then start + Texts(calls[k]) else Accumulated(calls, k + 1, d - 1, start + Texts(calls[k]))
  }

  lemma AccumulatedStep(calls: seq<seq<Step>>, k: nat, d: nat, start: string)
    requires k + d + 1 < |calls|
    ensures Accumulated(calls, k, d + 1, start) == Accumulated(calls, k + 1, d, start + Texts(calls[k]))
  {
  }

  /** The forwarding loop: duplicates of collected edits are skipped; everything else is
      forwarded, and forwarded edits join the collected ones. */
  method Forward(collected: seq<Edit>, inner: seq<Packet>) returns (out: seq<Packet>, collected': seq<Edit>)
    ensures (out, collected') == Dedup(collected, inner)
  {
    out, collected' := [], collected;
    for i := 0 to |inner|
      invariant (out, collected') == Dedup(collected, inner[..i])
    {
      assert inner[..i + 1][..i] == inner[..i];
      var p := inner[i];
      if p.EditPacket? {
        if Seen(collected', p.edit) {
          continue;
        }
        collected' := collected' + [p.edit];
      }
      out := out + [p];
    }
    assert inner[..|inner|] == inner;
  }

  /** `getAIEdits`. The call with index `k` reads the reply `calls[k]`. */
  method GetAIEdits(calls: seq<seq<Step>>, k: nat, maxCalls: int, collectedJSON: Option<string>,
                    parse: string -> Option<Json>)
    returns (packets: seq<Packet>)
    requires k + Budget(maxCalls) < |calls|
    ensures packets == CallAI(calls, k, maxCalls, JsonStart(collectedJSON), parse)
    decreases Budget(maxCalls)
  {
    var jsonStart := JsonStart(collectedJSON);
    var full, flushed, collected, marks, echo := RunChunks(calls[k], jsonStart, ParseLegacyEdit, false);
    var parsed := parse(full);
    if parsed.Some? {
      packets := flushed + [AllEdits(parsed.value)];
    } else if |collected| > 0 && maxCalls > 0 {
      var inner := GetAIEdits(calls, k + 1, maxCalls - 1, Some(full), parse);
      var forwarded, collected';
      forwarded, collected' := Forward(collected, inner);
      packets := flushed + forwarded;
    } else {
      packets := flushed + [ErrorPacket("Failed to parse JSON.")];
    }
  }

  // ----- Properties -----

  predicate AllEditPackets(ps: seq<Packet>)
  {
    forall i :: 0 <= i < |ps| ==> ps[i].EditPacket?
  }

  lemma {:induction false} DedupKeepsEdits(c: seq<Edit>, ps: seq<Packet>)
    requires AllEditPackets(ps)
    ensures AllEditPackets(Dedup(c, ps).0)
  {
    if ps != [] {
      DedupKeepsEdits(c, ps[..|ps| - 1]);
    }
  }

  /** Forwarding a stream that ends once gives a stream that ends once, with the same
      terminal packet. */
  lemma DedupEndsOnce(c: seq<Edit>, ps: seq<Packet>)
    requires EndsOnce(ps)
    ensures EndsOnce(Dedup(c, ps).0)
    ensures Dedup(c, ps).0[|Dedup(c, ps).0| - 1] == ps[|ps| - 1]
  {
    DedupKeepsEdits(c, ps[..|ps| - 1]);
  }

  /** Edit packets followed by a stream that ends once end once, on that stream's
      terminal packet. */
  lemma EditsThenEndsOnce(es: seq<Edit>, out: seq<Packet>)
    requires EndsOnce(out)
    ensures EndsOnce(EditPackets(es) + out)
    ensures (EditPackets(es) + out)[|EditPackets(es) + out| - 1] == out[|out| - 1]
  {
    var all := EditPackets(es) + out;
    forall i | 0 <= i < |all| - 1 ensures all[i].EditPacket? {
      if i >= |es| {
        assert all[i] == out[i - |es|];
      }
    }
  }

  /** Each call's stream ends with exactly one terminal packet, whatever the number of
      continuations. */
  lemma {:induction false} CallAIEndsOnce(calls: seq<seq<Step>>, k: nat, maxCalls: int, start: string,
                                          parse: string -> Option<Json>)
    requires k + Budget(maxCalls) < |calls|
    ensures EndsOnce(CallAI(calls, k, maxCalls, start, parse))
    decreases Budget(maxCalls)
  {
    var steps := calls[k];
    var full := start + Texts(steps);
    var flushed := Flushed(steps, ParseLegacyEdit);
    if Continues(steps, full, maxCalls, parse) {
      var inner := CallAI(calls, k + 1, maxCalls - 1, full, parse);
      CallAIEndsOnce(calls, k + 1, maxCalls - 1, full, parse);
      DedupEndsOnce(Collected(steps, ParseLegacyEdit), inner);
      EditsThenEndsOnce(flushed, Dedup(Collected(steps, ParseLegacyEdit), inner).0);
    } else {
      EndsOnceAfterEdits(flushed, ParsedOrError(parse(full)));
    }
  }

  /** The terminal packet is decided by the text the last call made ends with: it
      carries that text's parse when it parses, and is an error otherwise. */
  lemma {:induction false} TerminalParsesFinalText(calls: seq<seq<Step>>, k: nat, maxCalls: int,
                                                   start: string, parse: string -> Option<Json>)
    requires k + Budget(maxCalls) < |calls|
    ensures CallAI(calls, k, maxCalls, start, parse) != []
    ensures var ps := CallAI(calls, k, maxCalls, start, parse);
      var text := FinalText(calls, k, maxCalls, start, parse);
      (ps[|ps| - 1].AllEdits? <==> parse(text).Some?) &&
      (ps[|ps| - 1].AllEdits? ==> parse(text) == Some(ps[|ps| - 1].edits))
    decreases Budget(maxCalls)
  {
    var steps := calls[k];
    var full := start + Texts(steps);
    var flushed := Flushed(steps, ParseLegacyEdit);
    var ps := CallAI(calls, k, maxCalls, start, parse);
    if Continues(steps, full, maxCalls, parse) {
      var inner := CallAI(calls, k + 1, maxCalls - 1, full, parse);
      TerminalParsesFinalText(calls, k + 1, maxCalls - 1, full, parse);
      CallAIEndsOnce(calls, k + 1, maxCalls - 1, full, parse);
      DedupEndsOnce(Collected(steps, ParseLegacyEdit), inner);
      var out := Dedup(Collected(steps, ParseLegacyEdit), inner).0;
      EditsThenEndsOnce(flushed, out);
      assert ps == EditPackets(flushed) + out;
    } else {
      assert ps == EditPackets(flushed) + [ParsedOrError(parse(full))];
    }
  }

  /** The text the last call ends with is `start` followed by the text of every call made. */
  lemma {:induction false} FinalTextAccumulates(calls: seq<seq<Step>>, k: nat, maxCalls: int,
                                                start: string, parse: string -> Option<Json>)
    requires k + Budget(maxCalls) < |calls|
    ensures FinalText(calls, k, maxCalls, start, parse) ==
      Accumulated(calls, k, Calls(calls, k, maxCalls, start, parse) - 1, start)
    decreases Budget(maxCalls)
  {
    var full := start + Texts(calls[k]);
    if Continues(calls[k], full, maxCalls, parse) {
      FinalTextAccumulates(calls, k + 1, maxCalls - 1, full, parse);
      var n := Calls(calls, k + 1, maxCalls - 1, full, parse);
      assert Calls(calls, k, maxCalls, start, parse) == 1 + n;
      assert FinalText(calls, k, maxCalls, start, parse) == FinalText(calls, k + 1, maxCalls - 1, full, parse);
      AccumulatedStep(calls, k, n - 1, start);
    } else {
      assert Calls(calls, k, maxCalls, start, parse) == 1;
      assert FinalText(calls, k, maxCalls, start, parse) == full;
    }
  }

  /** The edits of the edit packets, in order. */
  function EditsIn(ps: seq<Packet>): seq<Edit>
  {
    if ps == [] then []
    else EditsIn(ps[..|ps| - 1]) + (if ps[|ps| - 1].EditPacket? then [ps[|ps| - 1].edit] else [])
  }

  /** Forwarded edits join the collected ones, in order; and each forwarded edit is new:
      it is the same as no edit collected before the continuation and no edit forwarded
      before it. */
  lemma {:induction false} ForwardedEditsAreNew(c: seq<Edit>, ps: seq<Packet>)
    ensures Dedup(c, ps).1 == c + EditsIn(Dedup(c, ps).0)
    ensures var out := Dedup(c, ps).0;
      forall i :: 0 <= i < |out| && out[i].EditPacket? ==> !Seen(c + EditsIn(out[..i]), out[i].edit)
  {
    if ps != [] {
      var init := ps[..|ps| - 1];
      ForwardedEditsAreNew(c, init);
      var (out0, c0) := Dedup(c, init);
      var p := ps[|ps| - 1];
      var out := Dedup(c, ps).0;
      if p.EditPacket? && !Seen(c0, p.edit) {
        assert out == out0 + [p];
        assert out[..|out0|] == out0;
        assert EditsIn(out) == EditsIn(out0) + [p.edit];
        forall i | 0 <= i < |out| && out[i].EditPacket?
          ensures !Seen(c + EditsIn(out[..i]), out[i].edit)
        {
          if i < |out0| {
            assert out[..i] == out0[..i];
          }
        }
      } else if !p.EditPacket? {
        assert out == out0 + [p];
        assert out[..|out0|] == out0;
        assert EditsIn(out) == EditsIn(out0);
        forall i | 0 <= i < |out| && out[i].EditPacket?
          ensures !Seen(c + EditsIn(out[..i]), out[i].edit)
        {
          assert i < |out0|;
          assert out[..i] == out0[..i];
        }
      }
    }
  }

  /** A continuation edit that repeats a collected edit is never forwarded. */
  lemma DuplicateNotForwarded(c: seq<Edit>, ps: seq<Packet>, i: nat)
    ensures var out := Dedup(c, ps).0;
      i < |out| && out[i].EditPacket? ==> !Seen(c, out[i].edit)
  {
    ForwardedEditsAreNew(c, ps);
    var out := Dedup(c, ps).0;
    if i < |out| && out[i].EditPacket? {
      var all := c + EditsIn(out[..i]);
      assert forall m :: 0 <= m < |c| ==> all[m] == c[m];
    }
  }
}
