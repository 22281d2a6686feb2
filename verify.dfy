/** The verification filter of src/verify-edits.ts: every proposed edit to an existing file
    is shown to a verifier model, whose reply may drop it (`skip`), replace its change, or
    be ignored when it is empty or malformed — the filter fails open. The model's reply is
    an input; `JSON.parse` is the oracle `parse`. */
module Verify {
  import opened Wrappers
  import opened Strings
  import opened Json
  import opened Edits
  import opened Models
  import opened Disk

  /** What the verifier model answered: Anthropic's first content block (text or not), or
      OpenAI's message content (possibly null). */
  datatype Reply = TextBlock(text: string) | OtherBlock | Content(content: Option<string>)

  const Fence: string := "```"

  /** `fixedEditJSON`: for Anthropic, "{" (the prefilled start) followed by the text before
      the first code fence; for OpenAI, the content when there is one; otherwise "". */
  function FixedEditJson(provider: Provider, reply: Reply): (r: string)
    ensures provider == Anthropic && reply.TextBlock? ==>
      1 <= |r| <= |reply.text| + 1 && r[0] == '{' && r[1..] == reply.text[..|r| - 1]
      && (|r| - 1 == |reply.text| || OccursAt(reply.text, Fence, |r| - 1))
    ensures !(provider == Anthropic && reply.TextBlock?) && !(provider == OpenAI && reply.Content? && reply.content.Some?) ==> r == ""
  {
    match provider
    case Anthropic => if reply.TextBlock? then "{" + BeforeFirst(reply.text, Fence) else ""
    case OpenAI => if reply.Content? && reply.content.Some? then reply.content.value else ""
    case Fireworks => ""
  }

  /** `verifyEdit`, given the reply: `None` drops the edit. */
  function VerifyEdit(edit: Edit, fixedJson: string, parse: string -> Option<Json>): (r: Option<Edit>)
    ensures r.None? <==> fixedJson != "" && parse(fixedJson).Some?
                         && ParseCorrectedChange(parse(fixedJson).value) == Some(Skip)
    ensures r.Some? ==> r.value.(change := edit.change) == edit
    ensures r.Some? && r.value.change != edit.change ==>
      fixedJson != "" && parse(fixedJson).Some?
      && ParseCorrectedChange(parse(fixedJson).value) == Some(r.value.change) && IsLineEdit(r.value.change)
    ensures fixedJson != "" && parse(fixedJson).Some? && ParseCorrectedChange(parse(fixedJson).value).Some?
            && ParseCorrectedChange(parse(fixedJson).value).value != Skip ==>
      r == Some(edit.(change := ParseCorrectedChange(parse(fixedJson).value).value))
  {
    if fixedJson == "" then Some(edit)
    else match parse(fixedJson)
      case None => Some(edit)
      case Some(j) =>
        match ParseCorrectedChange(j)
        case None => Some(edit)
        case Some(Skip) => None
        case Some(c) => Some(edit.(change := c))
  }

  /** The filter fails open: an empty reply, one that is not JSON, and one that is not a
      valid corrected change all leave the edit exactly as it was. */
  lemma FailsOpen(edit: Edit, fixedJson: string, parse: string -> Option<Json>)
    requires fixedJson == "" || parse(fixedJson).None? || ParseCorrectedChange(parse(fixedJson).value).None?
    ensures VerifyEdit(edit, fixedJson, parse) == Some(edit)
  {
  }

  /** A reply that encodes a line change replaces the edit's change by exactly that one. */
  lemma ReplyReplacesChange(edit: Edit, c: Change, fixedJson: string, parse: string -> Option<Json>)
    requires IsLineEdit(c) && fixedJson != "" && parse(fixedJson) == Some(EncodeChange(c))
    ensures VerifyEdit(edit, fixedJson, parse) == Some(edit.(change := c))
  {
    ChangeRoundTrip(c);
  }

  /** What `verifyEditStream` forwards for one packet. */
  function Forward(p: Packet, disk: Disk, provider: Provider, reply: Reply, parse: string -> Option<Json>): seq<Packet>
  {
    match p
    case EditPacket(e) =>
      if e.filename !in disk then [p]
      else (
        match VerifyEdit(e, FixedEditJson(provider, reply), parse)
        case None => []
        case Some(v) => [EditPacket(v)])
    case _ => [p]
  }

  /** The filtered stream for the first `n` packets. */
  function Filtered(packets: seq<Packet>, disk: Disk, provider: Provider, replies: seq<Reply>,
                    parse: string -> Option<Json>, n: nat): seq<Packet>
    requires n <= |packets| == |replies|
  {
    if n == 0 then []
    else Filtered(packets, disk, provider, replies, parse, n - 1)
         + Forward(packets[n - 1], disk, provider, replies[n - 1], parse)
  }

  /** The provider of the verifier model `verifyEdit` selects for the stream's preferred
      provider: Anthropic's haiku for Anthropic and Fireworks, OpenAI's mini for OpenAI. */
  function VerifierProvider(preferred: Provider): (r: Provider)
    ensures SelectVerifier(Table, preferred).Some? && r == Table[SelectVerifier(Table, preferred).value].provider
    ensures r == if preferred == OpenAI then OpenAI else Anthropic
  {
    TableVerifiers();
    assert Table[1].provider == Anthropic && Table[2].provider == OpenAI;
    if preferred == OpenAI then OpenAI else Anthropic
  }

  /** An edit to a path that exists but cannot be read (a directory among them): the
      `loadNumberedFile` call throws, and the throw ends the stream. */
  predicate Throws(p: Packet, disk: Disk)
  {
    p.EditPacket? && p.edit.filename in disk && disk[p.edit.filename].Unreadable?
  }

  /** How many packets the stream handles before a throw ends it: all of them when none
      throws. */
  function Reached(packets: seq<Packet>, disk: Disk): (r: nat)
    ensures r <= |packets|
    ensures forall k :: 0 <= k < r ==> !Throws(packets[k], disk)
    ensures r < |packets| ==> Throws(packets[r], disk)
  {
    if packets == [] || Throws(packets[0], disk) then 0
    else
      var rest := Reached(packets[1..], disk);
      assert forall k :: 1 <= k < rest + 1 ==> packets[k] == packets[1..][k - 1];
      rest + 1
  }

  /** `verifyEditStream`: one reply per packet, consulted only for edits to files that
      exist and can be read. `thrown` is the stream ending in the error `loadNumberedFile`
      raises; the packets forwarded before it are those of the first `Reached` packets. */
  method VerifyEditStream(packets: seq<Packet>, disk: Disk, preferred: Provider, replies: seq<Reply>,
                          parse: string -> Option<Json>) returns (out: seq<Packet>, thrown: bool)
    requires |replies| == |packets|
    ensures thrown <==> Reached(packets, disk) < |packets|
    ensures out == Filtered(packets, disk, VerifierProvider(preferred), replies, parse, Reached(packets, disk))
  {
    var provider := VerifierProvider(preferred);
    out, thrown := [], false;
    var i := 0;
    while i < |packets|
      invariant i <= Reached(packets, disk)
      invariant out == Filtered(packets, disk, provider, replies, parse, i)
    {
      if Throws(packets[i], disk) {
        thrown := true;
        return;
      }
      var forwarded := ForwardNext(packets[i], disk, provider, replies[i], parse);
      out := out + forwarded;
      i := i + 1;
    }
  }

  /** One packet of `verifyEditStream` that does not throw: an edit to a missing file and
      every other packet pass through, an edit to a readable file goes through `verifyEdit`. */
  method ForwardNext(p: Packet, disk: Disk, provider: Provider, reply: Reply, parse: string -> Option<Json>)
    returns (forwarded: seq<Packet>)
    requires !Throws(p, disk)
    ensures forwarded == Forward(p, disk, provider, reply, parse)
  {
    if p.EditPacket? && p.edit.filename in disk {
      var fixedJson := FixedEditJson(provider, reply);
      var verified := VerifyEdit(p.edit, fixedJson, parse);
      forwarded := if verified.Some? then [EditPacket(verified.value)] else [];
    } else {
      forwarded := [p];
    }
  }

  /** The packets that are not edits, in order. */
  function Others(ps: seq<Packet>): seq<Packet>
  {
    if ps == [] then [] else Others(ps[..|ps| - 1]) + (if ps[|ps| - 1].EditPacket? then [] else [ps[|ps| - 1]])
  }

  lemma {:induction false} OthersAppend(a: seq<Packet>, b: seq<Packet>)
    ensures Others(a + b) == Others(a) + Others(b)
    decreases |b|
  {
    if b == [] {
      assert a + b == a;
    } else {
      assert (a + b)[..|a + b| - 1] == a + b[..|b| - 1];
      OthersAppend(a, b[..|b| - 1]);
    }
  }

  /** Packets that are not edits pass through unchanged and in order. */
  lemma {:induction false} FilterKeepsOthers(packets: seq<Packet>, disk: Disk, provider: Provider,
                                             replies: seq<Reply>, parse: string -> Option<Json>, n: nat)
    requires n <= |packets| == |replies|
    ensures Others(Filtered(packets, disk, provider, replies, parse, n)) == Others(packets[..n])
  {
    if n > 0 {
      var prev := Filtered(packets, disk, provider, replies, parse, n - 1);
      var fw := Forward(packets[n - 1], disk, provider, replies[n - 1], parse);
      FilterKeepsOthers(packets, disk, provider, replies, parse, n - 1);
      ForwardKeepsOthers(packets[n - 1], disk, provider, replies[n - 1], parse);
      assert packets[..n] == packets[..n - 1] + [packets[n - 1]];
      OthersStep(prev, fw, packets[..n - 1], packets[n - 1]);
      assert Filtered(packets, disk, provider, replies, parse, n) == prev + fw;
    } else {
      assert packets[..0] == [];
    }
  }

  lemma OthersStep(prev: seq<Packet>, fw: seq<Packet>, init: seq<Packet>, last: Packet)
    requires Others(prev) == Others(init) && Others(fw) == Others([last])
    ensures Others(prev + fw) == Others(init + [last])
  {
    OthersAppend(prev, fw);
    OthersAppend(init, [last]);
  }

  /** The filter never adds packets: at most one goes out per packet in. */
  lemma {:induction false} FilterNeverAdds(packets: seq<Packet>, disk: Disk, provider: Provider,
                                           replies: seq<Reply>, parse: string -> Option<Json>, n: nat)
    requires n <= |packets| == |replies|
    ensures |Filtered(packets, disk, provider, replies, parse, n)| <= n
  {
    if n > 0 {
      FilterNeverAdds(packets, disk, provider, replies, parse, n - 1);
      ForwardKeepsOthers(packets[n - 1], disk, provider, replies[n - 1], parse);
    }
  }

  /** Without a `skip` reply, exactly one packet goes out per packet in. */
  lemma {:induction false} NoSkipKeepsCount(packets: seq<Packet>, disk: Disk, provider: Provider,
                                            replies: seq<Reply>, parse: string -> Option<Json>, n: nat)
    requires n <= |packets| == |replies|
    requires forall i :: 0 <= i < n ==> Forward(packets[i], disk, provider, replies[i], parse) != []
    ensures |Filtered(packets, disk, provider, replies, parse, n)| == n
  {
    if n > 0 {
      NoSkipKeepsCount(packets, disk, provider, replies, parse, n - 1);
      ForwardKeepsOthers(packets[n - 1], disk, provider, replies[n - 1], parse);
    }
  }

  lemma ForwardKeepsOthers(p: Packet, disk: Disk, provider: Provider, reply: Reply, parse: string -> Option<Json>)
    ensures Others(Forward(p, disk, provider, reply, parse)) == Others([p])
    ensures |Forward(p, disk, provider, reply, parse)| <= 1
  {
    var fw := Forward(p, disk, provider, reply, parse);
    assert [p][..0] == [];
    if fw != [] {
      assert fw[..0] == [];
    }
  }

  /** An edit to a file that does not exist passes through unverified, whatever the reply. */
  lemma MissingFilePassesThrough(e: Edit, disk: Disk, provider: Provider, reply: Reply, parse: string -> Option<Json>)
    requires e.filename !in disk
    ensures Forward(EditPacket(e), disk, provider, reply, parse) == [EditPacket(e)]
  {
  }
}
