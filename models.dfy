/** The model table of src/models.ts, reduced to the fields the selection rules read, and
    the lookups over it. Prices, output lengths and context windows are not modelled. */
module Models {
  import opened Wrappers

  datatype Provider = Anthropic | OpenAI | Fireworks

  datatype Model = Model(name: string, provider: Provider, nickName: string, verifyModel: bool)

  const Table: seq<Model> := [
    Model("claude-3-5-sonnet-20240620", Anthropic, "sonnet35", false),
    Model("claude-3-haiku-20240307", Anthropic, "haiku", true),
    Model("gpt-4o-mini", OpenAI, "4omini", true),
    Model("gpt-4-turbo", OpenAI, "4turbo", false),
    Model("accounts/fireworks/models/llama-v3p1-405b-instruct", Fireworks, "llama405b", false)
  ]

  /** A verifier model, of provider `p` when one is given. */
  predicate Qualifies(m: Model, p: Option<Provider>)
  {
    m.verifyModel && (p.Some? ==> m.provider == p.value)
  }

  /** `models.find(m => m.provider === p && m.verifyModel)`, as an index. */
  function FirstVerifierOf(models: seq<Model>, p: Option<Provider>): (r: Option<nat>)
    ensures r.Some? ==> r.value < |models| && Qualifies(models[r.value], p)
    ensures r.Some? ==> forall i :: 0 <= i < r.value ==> !Qualifies(models[i], p)
    ensures r.None? ==> forall i :: 0 <= i < |models| ==> !Qualifies(models[i], p)
  {
    if models == [] then None
    else if Qualifies(models[0], p) then Some(0)
    else match FirstVerifierOf(models[1..], p)
      case None => None
      case Some(k) => Some(k + 1)
  }

  /** The verifier model: the first verifier of the preferred provider, otherwise the first
      verifier of any provider. */
  function SelectVerifier(models: seq<Model>, preferred: Provider): (r: Option<nat>)
    ensures r.Some? ==> r.value < |models| && models[r.value].verifyModel
    ensures FirstVerifierOf(models, Some(preferred)).Some? ==> r == FirstVerifierOf(models, Some(preferred))
    ensures FirstVerifierOf(models, Some(preferred)).None? ==> r == FirstVerifierOf(models, None)
    ensures r.None? <==> forall i :: 0 <= i < |models| ==> !models[i].verifyModel
  {
    var own := FirstVerifierOf(models, Some(preferred));
    if own.Some? then own else FirstVerifierOf(models, None)
  }

  /** The table always yields a verifier: haiku for Anthropic and for Fireworks (which has
      none of its own), gpt-4o-mini for OpenAI. */
  lemma TableVerifiers()
    ensures SelectVerifier(Table, Anthropic) == Some(1)
    ensures SelectVerifier(Table, OpenAI) == Some(2)
    ensures SelectVerifier(Table, Fireworks) == Some(1)
  {
    assert !Qualifies(Table[0], None) && Qualifies(Table[1], None);
    assert !Qualifies(Table[0], Some(OpenAI)) && !Qualifies(Table[1], Some(OpenAI)) && Qualifies(Table[2], Some(OpenAI));
    assert forall i :: 0 <= i < |Table| ==> !Qualifies(Table[i], Some(Fireworks));
  }

  /** `models.find(m => m.nickName === n)`. */
  function ByNickName(models: seq<Model>, n: string): (r: Option<Model>)
    ensures r.Some? ==> r.value in models && r.value.nickName == n
    ensures r.None? <==> forall k :: 0 <= k < |models| ==> models[k].nickName != n
  {
    if models == [] then None
    else if models[0].nickName == n then Some(models[0])
    else ByNickName(models[1..], n)
  }

  /** `find` returns the first model carrying the nickname: every model before it carries
      another one. */
  lemma {:induction false} ByNickNameFirst(models: seq<Model>, n: string)
    requires ByNickName(models, n).Some?
    ensures exists i :: 0 <= i < |models| && models[i] == ByNickName(models, n).value && NoneBefore(models, n, i)
  {
    if models[0].nickName != n {
      ByNickNameFirst(models[1..], n);
      var i :| 0 <= i < |models[1..]| && models[1..][i] == ByNickName(models[1..], n).value && NoneBefore(models[1..], n, i);
      assert models[i + 1] == ByNickName(models, n).value;
      assert forall k :: 1 <= k < i + 1 ==> models[k].nickName == models[1..][k - 1].nickName;
    } else {
      assert models[0] == ByNickName(models, n).value && NoneBefore(models, n, 0);
    }
  }

  /** No model before position `i` carries nickname `n`. */
  predicate NoneBefore(models: seq<Model>, n: string, i: nat)
    requires i <= |models|
  {
    forall k :: 0 <= k < i ==> models[k].nickName != n
  }

  /** The table's nicknames are distinct, so every nickname of the table selects the model
      that carries it. */
  lemma TableNickNames()
    ensures forall i :: 0 <= i < |Table| ==> ByNickName(Table, Table[i].nickName) == Some(Table[i])
  {
    assert forall i, j :: 0 <= i < j < |Table| ==> Table[i].nickName != Table[j].nickName;
  }
}
