/** The Fireworks streaming adapter (src/call-fireworks.ts): it reads the reply as
    server-sent events (section 9.2 of the HTML Living Standard), keeps only `data: `
    lines, appends each truthy `choices[0].delta.content`, and yields the validated edits
    right after every append. The reply is a sequence of decoded chunks; the candidates
    the incremental parser completes are given per append; `JSON.parse` is the oracle
    `parse`. */
module Fireworks {
  import opened Wrappers
  import opened Json
  import opened Strings
  import opened Seqs
  import opened Edits
  import opened Streams

  /** The answer to the request: `ok`, the HTTP status, whether there is a body, and the
      body as decoded chunks. */
  datatype Response = Response(ok: bool, status: nat, hasBody: bool, chunks: seq<string>)

  /** The adapter either throws before streaming or yields its packets. */
  datatype Outcome = Thrown(message: string) | Yielded(packets: seq<Packet>)

  const DataPrefix: string := "data: "
  const Done: string := "[DONE]"
  const KeyMissing: string := "FIREWORKS_API_KEY is not set in the environment variables"
  const NoBody: string := "Response body is null"

  /** The payload of a `data: ` line: the text after its first six characters. */
  function Payload(line: string): (r: Option<string>)
    ensures r.Some? <==> StartsWith(line, DataPrefix)
    ensures r.Some? ==> line == DataPrefix + r.value
  {
    if StartsWith(line, DataPrefix) then
      assert line == line[..6] + line[6..];
      Some(line[6..])
    else None
  }

  /** A line whose payload is `[DONE]`. */
  predicate IsDone(line: string)
  {
    line == DataPrefix + Done
  }

  lemma DoneIsDonePayload(line: string)
    ensures IsDone(line) <==> Payload(line) == Some(Done)
  {
    if Payload(line) == Some(Done) {
      assert line == line[..6] + line[6..];
    }
  }

  /** The lines of a chunk that are processed: those before the first `[DONE]` line. */
  function UntilDone(lines: seq<string>): (r: seq<string>)
    ensures |r| <= |lines| && r == lines[..|r|]
    ensures forall k :: 0 <= k < |r| ==> !IsDone(r[k])
    ensures |r| < |lines| ==> IsDone(lines[|r|])
  {
    if lines == [] || IsDone(lines[0]) then []
    else [lines[0]] + UntilDone(lines[1..])
  }

  /** `value[0]`: the first element of an array, the member `"0"` of an object, the first
      character of a string. */
  function At0(j: Json): Option<Json>
  {
    match j
    case JArr(items) => if |items| > 0 then Some(items[0]) else None
    case JObj(_) => Field(j, "0")
    case JStr(s) => if |s| > 0 then Some(JStr([s[0]])) else None
    case _ => None
  }

  function IfTruthy(j: Option<Json>): Option<Json>
  {
    if j.Some? && Truthy(j.value) then j else None
  }

  /** `choices[0].delta.content` of a parsed data payload, when every step of the path
      is truthy and the content is a string. */
  function DeltaContent(p: Json): (r: Option<string>)
    ensures r.Some? ==> r.value != ""
    ensures r.Some? ==> Field(p, "choices").Some? && Truthy(Field(p, "choices").value)
  {
    match IfTruthy(Field(p, "choices"))
    case None => None
    case Some(choices) =>
      match IfTruthy(At0(choices))
      case None => None
      case Some(first) =>
        match IfTruthy(Field(first, "delta"))
        case None => None
        case Some(delta) =>
          match IfTruthy(Field(delta, "content"))
          case Some(JStr(s)) => Some(s)
          case _ => None
  }

  /** What one line appends: the content of a well-formed `data: ` line, nothing for any
      other line, for a malformed payload or for a falsy content. */
  function LineContent(line: string, parse: string -> Option<Json>): (r: seq<string>)
    ensures |r| <= 1
    ensures r != [] ==>
      Payload(line).Some? && parse(Payload(line).value).Some? &&
      DeltaContent(parse(Payload(line).value).value) == Some(r[0]) && r[0] != ""
  {
    match Payload(line)
    case None => []
    case Some(data) =>
      match parse(data)
      case None => []
      case Some(p) =>
        match DeltaContent(p)
        case None => []
        case Some(c) => [c]
  }

  /** `f` applied to each element, the results concatenated in order. */
  function FlatMap<T, U>(xs: seq<T>, f: T -> seq<U>): seq<U>
  {
    if xs == [] then [] else FlatMap(xs[..|xs| - 1], f) + f(xs[|xs| - 1])
  }

  lemma {:induction false} FlatMapAppend<T, U>(a: seq<T>, b: seq<T>, f: T -> seq<U>)
    ensures FlatMap(a + b, f) == FlatMap(a, f) + FlatMap(b, f)
    decreases |b|
  {
    if b == [] {
      assert a + b == a;
    } else {
      FlatMapAppend(a, b[..|b| - 1], f);
      assert (a + b)[..|a + b| - 1] == a + b[..|b| - 1];
    }
  }

  lemma FlatMapStep<T, U>(xs: seq<T>, i: nat, f: T -> seq<U>)
    requires i < |xs|
    ensures FlatMap(xs[..i + 1], f) == FlatMap(xs[..i], f) + f(xs[i])
  {
    assert xs[..i + 1][..i] == xs[..i];
  }

  /** The contents appended for the lines, in order. */
  function LinesContents(lines: seq<string>, parse: string -> Option<Json>): seq<string>
  {
    FlatMap(lines, line => LineContent(line, parse))
  }

  /** The contents one decoded chunk appends. */
  function ReadContents(chunk: string, parse: string -> Option<Json>): seq<string>
  {
    LinesContents(UntilDone(Split(chunk, '\n')), parse)
  }

  /** The contents all the chunks append, in order. */
  function AllContents(chunks: seq<string>, parse: string -> Option<Json>): seq<string>
  {
    FlatMap(chunks, chunk => ReadContents(chunk, parse))
  }

  function Concat(ss: seq<string>): string
  {
    if ss == [] then "" else Concat(ss[..|ss| - 1]) + ss[|ss| - 1]
  }

  /** The edits yielded by the first `n` appends: after append `a`, those validated from
      the candidates the parser completed since the previous append. */
  function FlushedUpTo(found: seq<seq<Json>>, n: nat): seq<Edit>
  {
    if n == 0 then []
    else FlushedUpTo(found, n - 1) + (if n - 1 < |found| then Validated(found[n - 1], ParseEdit) else [])
  }

  /** Every packet of a reply that streams. */
  function FireworksStream(chunks: seq<string>, found: seq<seq<Json>>, parse: string -> Option<Json>): seq<Packet>
  {
    var contents := AllContents(chunks, parse);
    EditPackets(FlushedUpTo(found, |contents|)) + [EditsOrError(parse(Concat(contents)))]
  }

  /** What the adapter does for a key (`None` when unset), a response, the candidates
      per append, and the parse oracle. */
  function FireworksOutcome(apiKey: Option<string>, response: Response, found: seq<seq<Json>>,
                            parse: string -> Option<Json>): Outcome
  {
    if apiKey.None? || apiKey.value == "" then Thrown(KeyMissing)
    else if !response.ok then Thrown("HTTP error! status: " + NatToString(response.status))
    else if !response.hasBody then Thrown(NoBody)
    else Yielded(FireworksStream(response.chunks, found, parse))
  }

  /** The text accumulated so far, the contents appended, and the packets yielded. */
  datatype Progress = Progress(full: string, appended: seq<string>, packets: seq<Packet>)

  ghost predicate Consistent(found: seq<seq<Json>>, p: Progress)
  {
    p.full == Concat(p.appended) && p.packets == EditPackets(FlushedUpTo(found, |p.appended|))
  }

  /** One truthy content: append it, take in what the parser completed, and yield it
      right away. */
  method Append(found: seq<seq<Json>>, p: Progress, content: string) returns (p': Progress)
    requires Consistent(found, p)
    ensures Consistent(found, p')
    ensures p'.appended == p.appended + [content]
  {
    var n := |p.appended|;
    var full := p.full + content;
    var latest: seq<Edit> := [];
    if n < |found| {
      latest := Validated(found[n], ParseEdit);
    }
    var appended := p.appended + [content];
    assert appended[..n] == p.appended;
    assert Concat(appended) == full;
    assert FlushedUpTo(found, n + 1) == FlushedUpTo(found, n) + latest;
    EditPacketsAppend(FlushedUpTo(found, n), latest);
    p' := Progress(full, appended, p.packets + EditPackets(latest));
  }

  lemma LinesStep(lines: seq<string>, i: nat, parse: string -> Option<Json>)
    requires i < |lines|
    ensures LinesContents(lines[..i + 1], parse) == LinesContents(lines[..i], parse) + LineContent(lines[i], parse)
  {
    FlatMapStep(lines, i, line => LineContent(line, parse));
  }

  lemma UntilDoneIs(lines: seq<string>, i: nat)
    requires i <= |lines|
    requires forall k :: 0 <= k < i ==> !IsDone(lines[k])
    requires i < |lines| ==> IsDone(lines[i])
    ensures UntilDone(lines) == lines[..i]
  {
    var r := UntilDone(lines);
  }

  /** One line: a `[DONE]` payload ends the chunk; a well-formed data line with a
      truthy content appends it; anything else is skipped. */
  method ReadLine(found: seq<seq<Json>>, p: Progress, line: string, parse: string -> Option<Json>)
    returns (p': Progress, done: bool)
    requires Consistent(found, p)
    ensures Consistent(found, p')
    ensures done <==> IsDone(line)
    ensures done ==> p' == p
    ensures !done ==> p'.appended == p.appended + LineContent(line, parse)
  {
    p', done := p, false;
    DoneIsDonePayload(line);
    if StartsWith(line, DataPrefix) {
      var data := line[6..];
      if data == Done {
        return p', true;
      }
      var parsed := parse(data);
      if parsed.Some? {
        var content := DeltaContent(parsed.value);
        if content.Some? {
          p' := Append(found, p', content.value);
        }
      }
    }
  }

  /** The line loop of one decoded chunk: it stops at a `[DONE]` line. */
  method ReadLines(found: seq<seq<Json>>, p: Progress, lines: seq<string>, parse: string -> Option<Json>)
    returns (p': Progress)
    requires Consistent(found, p)
    ensures Consistent(found, p')
    ensures p'.appended == p.appended + LinesContents(UntilDone(lines), parse)
  {
    p' := p;
    var i := 0;
    while i < |lines|
      invariant 0 <= i <= |UntilDone(lines)|
      invariant Consistent(found, p')
      invariant p'.appended == p.appended + LinesContents(lines[..i], parse)
    {
      var done;
      p', done := ReadNext(found, p.appended, p', lines, i, parse);
      if done {
        UntilDoneStops(lines, i);
        return;
      }
      UntilDoneGoesOn(lines, i);
      i := i + 1;
    }
    UntilDoneStops(lines, i);
  }

  /** A line before the first `[DONE]` that is not `[DONE]` itself leaves one more line to read. */
  lemma UntilDoneGoesOn(lines: seq<string>, i: nat)
    requires i < |lines| && i <= |UntilDone(lines)| && !IsDone(lines[i])
    ensures i + 1 <= |UntilDone(lines)|
  {
  }

  /** The loop stops at the first `[DONE]` line or at the end of the chunk. */
  lemma UntilDoneStops(lines: seq<string>, i: nat)
    requires i <= |UntilDone(lines)| && (i == |lines| || IsDone(lines[i]))
    ensures UntilDone(lines) == lines[..i]
  {
  }

  /** One turn of the line loop: the contents so far grow by the line's content unless
      the line is the `[DONE]` one. */
  method ReadNext(found: seq<seq<Json>>, ghost start: seq<string>, p: Progress, lines: seq<string>, i: nat,
                  parse: string -> Option<Json>)
    returns (p': Progress, done: bool)
    requires i < |lines| && Consistent(found, p)
    requires p.appended == start + LinesContents(lines[..i], parse)
    ensures Consistent(found, p')
    ensures done <==> IsDone(lines[i])
    ensures done ==> p' == p
    ensures !done ==> p'.appended == start + LinesContents(lines[..i + 1], parse)
  {
    p', done := ReadLine(found, p, lines[i], parse);
    if !done {
      LinesStep(lines, i, parse);
      AppendAssociates(start, LinesContents(lines[..i], parse), LineContent(lines[i], parse));
    }
  }

  /** `getAIEditsFromFireworks`. `requested` says whether the request was sent. */
  method GetAIEditsFromFireworks(apiKey: Option<string>, response: Response, found: seq<seq<Json>>,
                                 parse: string -> Option<Json>)
    returns (requested: bool, outcome: Outcome)
    ensures requested <==> apiKey.Some? && apiKey.value != ""
    ensures outcome == FireworksOutcome(apiKey, response, found, parse)
  {
    if apiKey.None? || apiKey.value == "" {
      return false, Thrown(KeyMissing);
    }
    requested := true;
    if !response.ok {
      return requested, Thrown("HTTP error! status: " + NatToString(response.status));
    }
    if !response.hasBody {
      return requested, Thrown(NoBody);
    }
    var p := Progress("", [], []);
    var chunks := response.chunks;
    for r := 0 to |chunks|
      invariant Consistent(found, p)
      invariant p.appended == AllContents(chunks[..r], parse)
    {
      FlatMapStep(chunks, r, c => ReadContents(c, parse));
      var lines := Split(chunks[r], '\n');
      p := ReadLines(found, p, lines, parse);
    }
    assert chunks[..|chunks|] == chunks;
    outcome := Yielded(p.packets + [EditsOrError(parse(p.full))]);
  }

  /** Without a non-empty key the adapter throws before sending anything; a failed
      response or a missing body throws; otherwise the stream ends with exactly one
      terminal packet, preceded by the edits yielded after each append. */
  lemma FireworksEndsOnce(apiKey: Option<string>, response: Response, found: seq<seq<Json>>,
                          parse: string -> Option<Json>)
    ensures var o := FireworksOutcome(apiKey, response, found, parse);
      (o.Thrown? <==> apiKey.None? || apiKey.value == "" || !response.ok || !response.hasBody) &&
      (o.Yielded? ==> (EndsOnce(o.packets) &&
        o.packets[..|o.packets| - 1] == EditPackets(FlushedUpTo(found, |AllContents(response.chunks, parse)|))))
  {
    var contents := AllContents(response.chunks, parse);
    EndsOnceAfterEdits(FlushedUpTo(found, |contents|), EditsOrError(parse(Concat(contents))));
  }

  /** Only `data: ` lines count: removing any other line from a chunk changes nothing it
      appends. */
  lemma OtherLinesIgnored(a: seq<string>, line: string, b: seq<string>, parse: string -> Option<Json>)
    requires !StartsWith(line, DataPrefix)
    ensures LinesContents(a + [line] + b, parse) == LinesContents(a + b, parse)
  {
    FlatMapAppend(a + [line], b, l => LineContent(l, parse));
    FlatMapAppend(a, b, l => LineContent(l, parse));
    assert (a + [line])[..|a|] == a;
  }

  /** A `[DONE]` line ends only its own chunk: the lines after it in that chunk add
      nothing, while every later chunk is still read. */
  lemma DoneEndsOnlyItsChunk(chunks: seq<string>, i: nat, k: nat, parse: string -> Option<Json>)
    requires i < |chunks|
    requires k < |Split(chunks[i], '\n')| && IsDone(Split(chunks[i], '\n')[k])
    requires forall m :: 0 <= m < k ==> !IsDone(Split(chunks[i], '\n')[m])
    ensures AllContents(chunks, parse) ==
      AllContents(chunks[..i], parse) + LinesContents(Split(chunks[i], '\n')[..k], parse) + AllContents(chunks[i + 1..], parse)
  {
    UntilDoneIs(Split(chunks[i], '\n'), k);
    assert chunks == chunks[..i] + [chunks[i]] + chunks[i + 1..];
    FlatMapAppend(chunks[..i] + [chunks[i]], chunks[i + 1..], c => ReadContents(c, parse));
    FlatMapAppend(chunks[..i], [chunks[i]], c => ReadContents(c, parse));
    assert [chunks[i]][..0] == [];
  }
}
