/** The chunk loop the streaming adapters share (src/call-ai.ts:126-142,
    src/call-ai-claude.ts:109-141, src/call-ai-gpt.ts:88-115): each iteration first yields
    the edits validated since the previous one, then appends the chunk's text, and may
    echo the explanation being written. The network stream and the incremental JSON
    parser are inputs: a `Step` is one chunk together with what the parser reported
    before the next iteration began. */
module Streams {
  import opened Wrappers
  import opened Json
  import opened Strings
  import opened Edits

  /** One chunk of the model's reply. `text` is the text it carries (`None` for a chunk
      that is not a text delta). `found` are the candidate values the incremental parser
      completed after this chunk, and `explainOpened` says whether it entered an
      `explain` key meanwhile. */
  datatype Step = Step(text: Option<string>, found: seq<Json>, explainOpened: bool)

  function TextOf(step: Step): string
  {
    match step.text
    case None => ""
    case Some(t) => t
  }

  /** The concatenated text of the chunks, in order. */
  function Texts(steps: seq<Step>): string
  {
    if steps == [] then "" else Texts(steps[..|steps| - 1]) + TextOf(steps[|steps| - 1])
  }

  /** The candidates that pass `validate`, in order; the others are dropped. */
  function Validated(found: seq<Json>, validate: Json -> Option<Edit>): (r: seq<Edit>)
    ensures |r| <= |found|
    ensures forall k :: 0 <= k < |r| ==> exists m :: 0 <= m < |found| && validate(found[m]) == Some(r[k])
  {
    if found == [] then []
    else
      var init := Validated(found[..|found| - 1], validate);
      assert forall k :: 0 <= k < |init| ==>
        exists m :: 0 <= m < |found| && validate(found[m]) == Some(init[k]) by {
        forall k | 0 <= k < |init|
          ensures exists m :: 0 <= m < |found| && validate(found[m]) == Some(init[k])
        {
          var m :| 0 <= m < |found| - 1 && validate(found[..|found| - 1][m]) == Some(init[k]);
          assert found[..|found| - 1][m] == found[m];
        }
      }
      match validate(found[|found| - 1])
      case None => init
      case Some(e) => init + [e]
  }

  /** Every edit validated from the candidates of the steps, in order. */
  function Collected(steps: seq<Step>, validate: Json -> Option<Edit>): seq<Edit>
  {
    if steps == [] then []
    else Collected(steps[..|steps| - 1], validate) + Validated(steps[|steps| - 1].found, validate)
  }

  /** The edits yielded one by one: those validated after every chunk but the last. */
  function Flushed(steps: seq<Step>, validate: Json -> Option<Edit>): seq<Edit>
  {
    if steps == [] then [] else Collected(steps[..|steps| - 1], validate)
  }

  function EditPackets(es: seq<Edit>): (r: seq<Packet>)
    ensures |r| == |es|
    ensures forall k :: 0 <= k < |r| ==> r[k] == EditPacket(es[k])
  {
    if es == [] then [] else EditPackets(es[..|es| - 1]) + [EditPacket(es[|es| - 1])]
  }

  /** A stream that yields edit packets and ends with exactly one terminal packet. */
  predicate EndsOnce(ps: seq<Packet>)
  {
    |ps| > 0 && ps[|ps| - 1].IsTerminal() && forall k :: 0 <= k < |ps| - 1 ==> ps[k].EditPacket?
  }

  /** The terminal decision of the Claude adapters: the parsed full text, or an error. */
  function ParsedOrError(parsed: Option<Json>): (r: Packet)
    ensures r.IsTerminal()
    ensures r.AllEdits? <==> parsed.Some?
    ensures r.AllEdits? ==> r.edits == parsed.value
  {
    match parsed
    case Some(j) => AllEdits(j)
    case None => ErrorPacket("Failed to parse JSON.")
  }

  /** `parsed.edits || []`: an error when the text does not parse or parses to `null`
      (reading a key of `null` throws); otherwise the `edits` member when it is truthy,
      and an empty list when it is absent or falsy. */
  function EditsOrError(parsed: Option<Json>): (r: Packet)
    ensures r.IsTerminal()
    ensures r.AllEdits? <==> parsed.Some? && parsed.value != JNull
    ensures r.AllEdits? ==> r.edits == JArr([]) || Field(parsed.value, "edits") == Some(r.edits)
    ensures r.AllEdits? && r.edits != JArr([]) ==> Truthy(r.edits)
    ensures r.AllEdits? && Field(parsed.value, "edits").Some? && Truthy(Field(parsed.value, "edits").value) ==>
      r.edits == Field(parsed.value, "edits").value
    ensures r.AllEdits? && (Field(parsed.value, "edits").None? || !Truthy(Field(parsed.value, "edits").value)) ==>
      r.edits == JArr([])
  {
    match parsed
    case None => ErrorPacket("Failed to parse JSON.")
    case Some(j) =>
      if j == JNull then ErrorPacket("Failed to parse JSON.")
      else
        match Field(j, "edits")
        case Some(e) => if Truthy(e) then AllEdits(e) else AllEdits(JArr([]))
        case None => AllEdits(JArr([]))
  }

  /** Edit packets followed by one terminal packet form a stream that ends once, and the
      edit packets carry the edits in order. */
  lemma EndsOnceAfterEdits(es: seq<Edit>, t: Packet)
    requires t.IsTerminal()
    ensures EndsOnce(EditPackets(es) + [t])
    ensures (EditPackets(es) + [t])[..|es|] == EditPackets(es)
  {
    var ps := EditPackets(es) + [t];
    assert ps[..|es|] == EditPackets(es);
  }

  lemma {:induction false} EditPacketsAppend(a: seq<Edit>, b: seq<Edit>)
    ensures EditPackets(a + b) == EditPackets(a) + EditPackets(b)
  {
    assert |EditPackets(a + b)| == |EditPackets(a) + EditPackets(b)|;
    forall k | 0 <= k < |a + b|
      ensures EditPackets(a + b)[k] == (EditPackets(a) + EditPackets(b))[k]
    {
      if k < |a| {
        assert (a + b)[k] == a[k];
      } else {
        assert (a + b)[k] == b[k - |a|];
      }
    }
  }

  /** A candidate that fails validation changes nothing: removing it from a step leaves
      the validated edits as they were. */
  lemma {:induction false} InvalidCandidateIgnored(a: seq<Json>, j: Json, b: seq<Json>, validate: Json -> Option<Edit>)
    requires validate(j).None?
    ensures Validated(a + [j] + b, validate) == Validated(a + b, validate)
    decreases |b|
  {
    if b == [] {
      assert (a + [j] + b)[..|a + [j] + b| - 1] == a;
      assert a + b == a;
    } else {
      var b' := b[..|b| - 1];
      InvalidCandidateIgnored(a, j, b', validate);
      assert (a + [j] + b)[..|a + [j] + b| - 1] == a + [j] + b';
      assert (a + b)[..|a + b| - 1] == a + b';
    }
  }

  lemma CollectedStep(steps: seq<Step>, i: nat, validate: Json -> Option<Edit>)
    requires i < |steps|
    ensures Collected(steps[..i + 1], validate) == Collected(steps[..i], validate) + Validated(steps[i].found, validate)
    ensures Texts(steps[..i + 1]) == Texts(steps[..i]) + TextOf(steps[i])
    ensures Flushed(steps[..i + 1], validate) == Collected(steps[..i], validate)
    ensures forall s0 :: (EchoRun(s0, steps[..i + 1]) ==
      (EchoStep(EchoRun(s0, steps[..i]).0, steps[i]).0, EchoRun(s0, steps[..i]).1 + EchoStep(EchoRun(s0, steps[..i]).0, steps[i]).1))
  {
    assert steps[..i + 1][..i] == steps[..i];
  }

  lemma TextStep(start: string, full: string, steps: seq<Step>, i: nat)
    requires i < |steps| && full == start + Texts(steps[..i])
    ensures full + TextOf(steps[i]) == start + Texts(steps[..i + 1])
  {
    assert steps[..i + 1][..i] == steps[..i];
  }

  /** The edits yielded one by one are a prefix of the edits collected: only the ones
      validated after the last chunk are left unyielded. */
  lemma FlushedThenLast(steps: seq<Step>, validate: Json -> Option<Edit>)
    requires steps != []
    ensures Collected(steps, validate) == Flushed(steps, validate) + Validated(steps[|steps| - 1].found, validate)
  {
  }

  /** Dropping a candidate that fails validation from one step changes neither the text,
      nor the edits collected, nor the edits yielded: an invalid candidate is skipped and
      the stream goes on. */
  lemma {:induction false} InvalidCandidateNoEffect(steps: seq<Step>, i: nat, a: seq<Json>, j: Json, b: seq<Json>,
                                                   validate: Json -> Option<Edit>)
    requires i < |steps| && steps[i].found == a + [j] + b && validate(j).None?
    ensures Texts(steps[i := steps[i].(found := a + b)]) == Texts(steps)
    ensures Collected(steps[i := steps[i].(found := a + b)], validate) == Collected(steps, validate)
    ensures Flushed(steps[i := steps[i].(found := a + b)], validate) == Flushed(steps, validate)
    decreases |steps|
  {
    var steps' := steps[i := steps[i].(found := a + b)];
    var n := |steps|;
    if i < n - 1 {
      InvalidCandidateNoEffect(steps[..n - 1], i, a, j, b, validate);
      assert steps'[..n - 1] == steps[..n - 1][i := steps[i].(found := a + b)];
      assert steps'[n - 1] == steps[n - 1];
    } else {
      InvalidCandidateIgnored(a, j, b, validate);
      assert steps'[..n - 1] == steps[..n - 1];
      assert TextOf(steps'[n - 1]) == TextOf(steps[n - 1]);
      assert Validated(steps'[n - 1].found, validate) == Validated(steps[n - 1].found, validate);
    }
  }

  // ----- The explanation echo (`streamStatus`) -----

  /** `streamStatus`: the echo prints the text between the first pair of quotes after an
      `explain` key opens. */
  datatype Status = NotStarted | ReasonEntered | ReasonStarted | ReasonEnded

  function Rank(s: Status): nat
  {
    match s
    case NotStarted => 0
    case ReasonEntered => 1
    case ReasonStarted => 2
    case ReasonEnded => 3
  }

  const Quote: char := '"'
  const ChangeLabel: string := "\nChange: "

  lemma {:induction false} InIffCounted(s: string, c: char)
    ensures c in s <==> Count(s, c) > 0
  {
    if s != [] {
      InIffCounted(s[1..], c);
      assert s == [s[0]] + s[1..];
    }
  }

  /** The first piece of a split is a prefix of the text, and all of it when the
      separator does not occur. */
  lemma {:induction false} FirstPieceIsPrefix(s: string, c: char)
    ensures Split(s, c)[0] <= s
    ensures c !in s ==> Split(s, c)[0] == s
  {
    if s != [] {
      FirstPieceIsPrefix(s[1..], c);
      assert s == [s[0]] + s[1..];
    }
  }

  /** What the echo prints for one text chunk, and the status after it. */
  function Echo(status: Status, text: string): (r: (Status, string))
    ensures Rank(r.0) == Rank(status) || (Rank(r.0) == Rank(status) + 1 && Quote in text)
    ensures status.NotStarted? || status.ReasonEnded? ==> r == (status, "")
    ensures status.ReasonEntered? ==>
      (Quote in text <==> r.0 == ReasonStarted) &&
      (Quote in text ==> |r.1| >= |ChangeLabel| && r.1[..|ChangeLabel|] == ChangeLabel && Quote !in r.1[|ChangeLabel|..]) &&
      (Quote !in text ==> r.1 == "")
    ensures status.ReasonStarted? ==>
      (Quote in text <==> r.0 == ReasonEnded) && r.1 <= text && Quote !in r.1 &&
      (Quote !in text ==> r.1 == text)
  {
    var pieces := Split(text, Quote);
    InIffCounted(text, Quote);
    FirstPieceIsPrefix(text, Quote);
    match status
    case ReasonEntered =>
      (if Quote in text then ReasonStarted else ReasonEntered,
       (if Quote in text then ChangeLabel else "") + (if |pieces| > 1 then pieces[1] else ""))
    case ReasonStarted =>
      (if Quote in text then ReasonEnded else ReasonStarted, pieces[0])
    case _ => (status, "")
  }

  /** One iteration: the chunk's text goes through the echo, then an `explain` key
      reported by the parser sets the status to `ReasonEntered`. */
  function EchoStep(status: Status, step: Step): (Status, string)
  {
    var (s, out) := match step.text
      case None => (status, "")
      case Some(t) => Echo(status, t);
    (if step.explainOpened then ReasonEntered else s, out)
  }

  /** The status after the steps, starting from `s0`, and everything echoed. */
  function EchoRun(s0: Status, steps: seq<Step>): (Status, string)
  {
    if steps == [] then (s0, "")
    else
      var (s, out) := EchoRun(s0, steps[..|steps| - 1]);
      var (s', more) := EchoStep(s, steps[|steps| - 1]);
      (s', out + more)
  }

  predicate NoExplain(steps: seq<Step>)
  {
    forall k :: 0 <= k < |steps| ==> !steps[k].explainOpened
  }

  /** Chunks only move the status forward: without an `explain` key opening, the
      status never goes back. */
  lemma {:induction false} StatusOnlyAdvances(s0: Status, steps: seq<Step>)
    requires NoExplain(steps)
    ensures Rank(EchoRun(s0, steps).0) >= Rank(s0)
  {
    if steps != [] {
      StatusOnlyAdvances(s0, steps[..|steps| - 1]);
      var last := steps[|steps| - 1];
      if last.text.Some? {
        var _ := Echo(EchoRun(s0, steps[..|steps| - 1]).0, last.text.value);
      }
    }
  }

  /** Once the explanation has ended, nothing more is echoed until another `explain` key
      opens. */
  lemma {:induction false} EndedIsSilent(steps: seq<Step>)
    requires NoExplain(steps)
    ensures EchoRun(ReasonEnded, steps) == (ReasonEnded, "")
  {
    if steps != [] {
      EndedIsSilent(steps[..|steps| - 1]);
      var last := steps[|steps| - 1];
      if last.text.Some? {
        assert Echo(ReasonEnded, last.text.value) == (ReasonEnded, "");
      }
      assert EchoStep(ReasonEnded, last) == (ReasonEnded, "");
      assert "" + "" == "";
    }
  }

  /** An opened `explain` key followed by a chunk with a quote and then another chunk
      with a quote ends the explanation. */
  lemma QuotesEndExplanation(a: string, b: string, found1: seq<Json>, found2: seq<Json>)
    requires Quote in a && Quote in b
    ensures EchoRun(ReasonEntered, [Step(Some(a), found1, false), Step(Some(b), found2, false)]).0 == ReasonEnded
  {
    var steps := [Step(Some(a), found1, false), Step(Some(b), found2, false)];
    assert steps[..1] == [steps[0]];
    assert [steps[0]][..0] == [];
    assert EchoRun(ReasonEntered, steps[..1]).0 == ReasonStarted;
  }

  /** A chunk with no text, and a chunk whose text is empty, have the same effect on the
      echo (the OpenAI adapter reads a missing `content` as `""`). */
  lemma EmptyChunkIsNoChunk(s: Status, step: Step)
    requires step.text == Some("")
    ensures EchoStep(s, step) == EchoStep(s, step.(text := None))
    ensures TextOf(step) == TextOf(step.(text := None))
  {
    assert Quote !in "";
    var _ := Echo(s, "");
  }

  /** The echo of one iteration, as the adapters write it: the chunk's text through
      the status machine, then the parser's `explain` event. */
  method EchoChunk(status: Status, step: Step) returns (status': Status, out: string)
    ensures (status', out) == EchoStep(status, step)
  {
    status', out := status, "";
    if step.text.Some? {
      var r := Echo(status, step.text.value);
      status', out := r.0, r.1;
    }
    if step.explainOpened {
      status' := ReasonEntered;
    }
  }

  /** For each chunk, how many edits had been yielded when it was processed. */
  function Marks(steps: seq<Step>, validate: Json -> Option<Edit>): (r: seq<nat>)
    ensures |r| == |steps|
  {
    if steps == [] then [] else Marks(steps[..|steps| - 1], validate) + [|Flushed(steps, validate)|]
  }

  lemma {:induction false} MarksCount(steps: seq<Step>, validate: Json -> Option<Edit>)
    ensures forall i :: 0 <= i < |steps| ==> Marks(steps, validate)[i] == |Collected(steps[..i], validate)|
  {
    if steps != [] {
      var init := steps[..|steps| - 1];
      MarksCount(init, validate);
      forall i | 0 <= i < |steps| ensures Marks(steps, validate)[i] == |Collected(steps[..i], validate)| {
        if i < |steps| - 1 {
          assert init[..i] == steps[..i];
        }
      }
    }
  }

  lemma MarksStep(steps: seq<Step>, i: nat, validate: Json -> Option<Edit>)
    requires i < |steps|
    ensures Marks(steps[..i + 1], validate) == Marks(steps[..i], validate) + [|Collected(steps[..i], validate)|]
  {
    assert steps[..i + 1][..i] == steps[..i];
  }

  /** The variables of the chunk loop. `latest` holds the edits validated since the
      last flush. */
  datatype Buffers = Buffers(
    full: string, packets: seq<Packet>, collected: seq<Edit>, latest: seq<Edit>,
    marks: seq<nat>, status: Status, echo: string)

  /** What the chunk loop keeps true after `i` iterations. */
  ghost predicate LoopInv(steps: seq<Step>, i: nat, start: string, validate: Json -> Option<Edit>, echoOn: bool, b: Buffers)
    requires i <= |steps|
  {
    && b.full == start + Texts(steps[..i])
    && b.collected == Collected(steps[..i], validate)
    && b.collected == Flushed(steps[..i], validate) + b.latest
    && b.packets == EditPackets(Flushed(steps[..i], validate))
    && |b.marks| == i
    && b.marks == Marks(steps[..i], validate)
    && (echoOn ==> (b.status, b.echo) == EchoRun(NotStarted, steps[..i]))
    && (!echoOn ==> b.echo == "")
  }

  /** One iteration of the chunk loop: flush, take the chunk, take what the parser
      reported. */
  method ChunkIteration(steps: seq<Step>, i: nat, start: string, validate: Json -> Option<Edit>, echoOn: bool, b: Buffers)
    returns (b': Buffers)
    requires i < |steps| && LoopInv(steps, i, start, validate, echoOn, b)
    ensures LoopInv(steps, i + 1, start, validate, echoOn, b')
  {
    CollectedStep(steps, i, validate);
    MarksStep(steps, i, validate);
    EditPacketsAppend(Flushed(steps[..i], validate), b.latest);
    var packets := b.packets + EditPackets(b.latest);
    var marks := b.marks + [|packets|];
    var step := steps[i];
    var status, echo := b.status, b.echo;
    if echoOn {
      var out;
      status, out := EchoChunk(status, step);
      echo := echo + out;
    }
    var validated := Validated(step.found, validate);
    TextStep(start, b.full, steps, i);
    b' := Buffers(b.full + TextOf(step), packets, b.collected + validated, validated, marks, status, echo);
  }

  /** The chunk loop. Each iteration yields the edits validated since the last one, then
      appends the chunk's text to `start` (and echoes it when `echoOn`), then takes in
      what the parser reported. `marks[i]` is how many edits had been yielded when chunk
      `i` was processed. */
  method RunChunks(steps: seq<Step>, start: string, validate: Json -> Option<Edit>, echoOn: bool)
    returns (full: string, packets: seq<Packet>, collected: seq<Edit>, marks: seq<nat>, echo: string)
    ensures full == start + Texts(steps)
    ensures collected == Collected(steps, validate)
    ensures packets == EditPackets(Flushed(steps, validate))
    ensures |marks| == |steps|
    ensures forall i :: 0 <= i < |steps| ==> marks[i] == |Collected(steps[..i], validate)|
    ensures echo == (if echoOn then EchoRun(NotStarted, steps).1 else "")
  {
    var b := Buffers(start, [], [], [], [], NotStarted, "");
    for i := 0 to |steps|
      invariant LoopInv(steps, i, start, validate, echoOn, b)
    {
      b := ChunkIteration(steps, i, start, validate, echoOn, b);
    }
    assert steps[..|steps|] == steps;
    MarksCount(steps, validate);
    full, packets, collected, marks, echo := b.full, b.packets, b.collected, b.marks, b.echo;
  }
}
