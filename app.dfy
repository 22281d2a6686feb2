/** The start of `main` in src/app.ts: the `-p` and `-a` flags, the inputs that remain
    once flags and empty arguments are dropped, the model picked by a trailing nickname,
    and the adapter the selected model's provider leads to. */
module App {
  import opened Wrappers
  import opened Strings
  import opened Models

  /** An argument that names an input: not empty and not starting with `-`. */
  predicate IsInput(arg: string)
  {
    arg != "" && !StartsWith(arg, "-")
  }

  /** `inputs.filter((input) => !input.startsWith("-") && !!input)`. */
  function Inputs(args: seq<string>): (r: seq<string>)
    ensures forall k :: 0 <= k < |r| ==> IsInput(r[k])
    ensures forall a :: a in args && IsInput(a) ==> a in r
    ensures forall a :: a in r ==> a in args
    ensures |r| <= |args|
  {
    if args == [] then []
    else
      var init := Inputs(args[..|args| - 1]);
      assert forall a :: a in args ==> a in args[..|args| - 1] || a == args[|args| - 1];
      if IsInput(args[|args| - 1]) then init + [args[|args| - 1]] else init
  }

  /** What the start of `main` settles before any file is read. */
  datatype Startup = Startup(printCodeAndExit: bool, includeImports: bool, inputs: seq<string>, model: Model)

  /** `main` up to the check for inputs: `None` is the exit with status 1 on "No files
      or folders to process". */
  method ParseArguments(args: seq<string>) returns (r: Option<Startup>)
    ensures r.Some? ==> r.value.printCodeAndExit == ("-p" in args) && r.value.includeImports == ("-a" in args)
    ensures var kept := Inputs(args);
      if kept != [] && ByNickName(Table, kept[|kept| - 1]).Some? then
        (r.Some? <==> |kept| > 1) &&
        (r.Some? ==> r.value.model == ByNickName(Table, kept[|kept| - 1]).value && r.value.inputs == kept[..|kept| - 1])
      else
        (r.Some? <==> kept != []) &&
        (r.Some? ==> r.value.model == Table[0] && r.value.inputs == kept)
    ensures r.Some? ==> r.value.inputs != [] && forall k :: 0 <= k < |r.value.inputs| ==> IsInput(r.value.inputs[k])
  {
    var inputs := args;
    var printCodeAndExit := "-p" in inputs;
    var includeImports := "-a" in inputs;
    inputs := Inputs(inputs);
    ghost var kept := inputs;
    var modelNickname: Option<string> := None;
    if |inputs| > 0 {
      modelNickname := Some(inputs[|inputs| - 1]);
      inputs := inputs[..|inputs| - 1];
    }
    var selectedModel := if modelNickname.Some? then ByNickName(Table, modelNickname.value) else None;
    if selectedModel.None? {
      if modelNickname.Some? && modelNickname.value != "" {
        inputs := inputs + [modelNickname.value];
      }
      selectedModel := Some(Table[0]);
    }
    if |inputs| == 0 {
      return None;
    }
    if modelNickname.Some? {
      assert kept == kept[..|kept| - 1] + [modelNickname.value];
    }
    assert inputs == kept || inputs == kept[..|kept| - 1];
    assert forall k :: 0 <= k < |inputs| ==> inputs[k] == kept[k];
    r := Some(Startup(printCodeAndExit, includeImports, inputs, selectedModel.value));
  }

  /** The adapter `main` hands the processed code to. */
  datatype Adapter = Claude | GPT

  /** The provider dispatch: Anthropic models go to Claude, OpenAI models to GPT, and any
      other provider ends the program with "Unsupported provider". */
  function AdapterFor(m: Model): (r: Option<Adapter>)
    ensures r == Some(Claude) <==> m.provider == Anthropic
    ensures r == Some(GPT) <==> m.provider == OpenAI
  {
    if m.provider == Anthropic then Some(Claude)
    else if m.provider == OpenAI then Some(GPT)
    else None
  }

  /** With no nickname given, the first model is used, and it is an Anthropic one; the
      Fireworks model can be selected but is then refused by the dispatch. */
  lemma DefaultIsClaude()
    ensures AdapterFor(Table[0]) == Some(Claude)
    ensures forall m :: m in Table && m.provider == Fireworks ==> AdapterFor(m).None?
    ensures exists n :: ByNickName(Table, n).Some? && ByNickName(Table, n).value.provider == Fireworks
  {
    assert ByNickName(Table, "llama405b").Some?;
  }

  /** A flag or an empty argument is dropped wherever it stands: the inputs are those of
      the arguments without it. */
  lemma {:induction false} DroppedAnywhere(a: seq<string>, x: string, b: seq<string>)
    requires !IsInput(x)
    ensures Inputs(a + [x] + b) == Inputs(a + b)
    decreases |b|
  {
    if b == [] {
      assert a + [x] + b == a + [x];
      assert a + b == a;
      InputsSnoc(a, x);
    } else {
      var b', y := b[..|b| - 1], b[|b| - 1];
      DroppedAnywhere(a, x, b');
      assert a + [x] + b == (a + [x] + b') + [y];
      assert a + b == (a + b') + [y];
      InputsSnoc(a + [x] + b', y);
      InputsSnoc(a + b', y);
    }
  }

  lemma InputsSnoc(args: seq<string>, a: string)
    ensures Inputs(args + [a]) == Inputs(args) + if IsInput(a) then [a] else []
  {
    assert (args + [a])[..|args|] == args;
  }

  lemma {:induction false} InputsOfInputs(files: seq<string>)
    requires forall k :: 0 <= k < |files| ==> IsInput(files[k])
    ensures Inputs(files) == files
  {
    if files != [] {
      InputsOfInputs(files[..|files| - 1]);
    }
  }
}
