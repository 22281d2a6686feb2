/** The edit record, its change descriptor, the edit packets of a stream, and the
    schemas (src/types.ts, and the older schema of src/call-ai.ts) that decide which
    parsed JSON values become edits. */
module Edits {
  import opened Wrappers
  import opened Json

  /** The change descriptor of an edit. The two line edits are what the current schema
      accepts; `NpmInstall` exists only in the older schema, and `Skip` only in a
      verifier's correction. Line numbers are 1-based as the model writes them and are
      not constrained by any schema. */
  datatype Change =
    | Addition(atLine: int)
    | Replacement(fromLine: int, toLine: int)
    | NpmInstall(packageName: string)
    | Skip

  predicate IsLineEdit(c: Change)
  {
    c.Addition? || c.Replacement?
  }

  /** One proposed edit. */
  datatype Edit = Edit(
    explain: string,
    filename: string,
    change: Change,
    code: string,
    newPackages: Option<seq<string>>)

  /** What an edit stream yields: one edit, the final full list (unvalidated JSON, as
      the adapters hand it on), or a terminal error. */
  datatype Packet =
    | EditPacket(edit: Edit)
    | AllEdits(edits: Json)
    | ErrorPacket(error: string)
  {
    predicate IsTerminal() { !EditPacket? }
  }

  /** The tag a change is serialised with. */
  function Tag(c: Change): string
  {
    match c
    case Addition(_) => "addition"
    case Replacement(_, _) => "replacement"
    case NpmInstall(_) => "npm_install"
    case Skip => "skip"
  }

  /** The JSON a change is written as (keys as in src/types.ts). */
  function EncodeChange(c: Change): Json
  {
    match c
    case Addition(n) => JObj(map["type" := JStr("addition"), "atLine" := JNum(n)])
    case Replacement(f, t) =>
      JObj(map["type" := JStr("replacement"), "fromLineNumber" := JNum(f), "toLineNumber" := JNum(t)])
    case NpmInstall(p) => JObj(map["type" := JStr("npm_install"), "packageName" := JStr(p)])
    case Skip => JObj(map["type" := JStr("skip")])
  }

  function StringField(j: Json, key: string): (r: Option<string>)
    ensures r.Some? <==> Field(j, key).Some? && Field(j, key).value.JStr?
    ensures r.Some? ==> Field(j, key) == Some(JStr(r.value))
  {
    match Field(j, key)
    case Some(JStr(s)) => Some(s)
    case _ => None
  }

  function NumberField(j: Json, key: string): (r: Option<int>)
    ensures r.Some? <==> Field(j, key).Some? && Field(j, key).value.JNum?
    ensures r.Some? ==> Field(j, key) == Some(JNum(r.value))
  {
    match Field(j, key)
    case Some(JNum(n)) => Some(n)
    case _ => None
  }

  /** The two line-edit alternatives of a discriminated union on "type". */
  function LineChange(j: Json): Option<Change>
  {
    var tag := StringField(j, "type");
    if tag == Some("addition") then
      (match NumberField(j, "atLine")
       case Some(n) => Some(Addition(n))
       case None => None)
    else if tag == Some("replacement") then
      (match (NumberField(j, "fromLineNumber"), NumberField(j, "toLineNumber"))
       case (Some(f), Some(t)) => Some(Replacement(f, t))
       case _ => None)
    else None
  }

  /** `EditTypeSchema`: an object tagged "addition" with a numeric `atLine`, or tagged
      "replacement" with numeric `fromLineNumber` and `toLineNumber`. */
  function ParseEditChange(j: Json): (r: Option<Change>)
    ensures r.Some? ==> IsLineEdit(r.value) && j.JObj?
    ensures r.Some? ==> Field(j, "type") == Some(JStr(Tag(r.value)))
    ensures r.Some? && r.value.Addition? ==> Field(j, "atLine") == Some(JNum(r.value.atLine))
    ensures r.Some? && r.value.Replacement? ==>
      Field(j, "fromLineNumber") == Some(JNum(r.value.fromLine)) &&
      Field(j, "toLineNumber") == Some(JNum(r.value.toLine))
    ensures r.Some? <==>
      (Field(j, "type") == Some(JStr("addition")) && NumberField(j, "atLine").Some?) ||
      (Field(j, "type") == Some(JStr("replacement")) &&
       NumberField(j, "fromLineNumber").Some? && NumberField(j, "toLineNumber").Some?)
  {
    LineChange(j)
  }

  /** `CorrectedEditChangeSchema`: the two line edits, or an object tagged "skip". */
  function ParseCorrectedChange(j: Json): (r: Option<Change>)
    ensures r.Some? ==> IsLineEdit(r.value) || r.value == Skip
    ensures r.Some? ==> Field(j, "type") == Some(JStr(Tag(r.value)))
    ensures r.Some? <==> Field(j, "type") == Some(JStr("skip")) || ParseEditChange(j).Some?
    ensures Field(j, "type") == Some(JStr("skip")) ==> r == Some(Skip)
  {
    if StringField(j, "type") == Some("skip") then Some(Skip) else LineChange(j)
  }

  /** The older change schema of src/call-ai.ts: the two line edits, or an object tagged
      "npm_install" with a string `packageName`. */
  function ParseLegacyChange(j: Json): (r: Option<Change>)
    ensures r.Some? ==> r.value != Skip
    ensures r.Some? ==> Field(j, "type") == Some(JStr(Tag(r.value)))
    ensures r.Some? && r.value.NpmInstall? ==> Field(j, "packageName") == Some(JStr(r.value.packageName))
    ensures r.Some? <==>
      (Field(j, "type") == Some(JStr("npm_install")) && StringField(j, "packageName").Some?) ||
      ParseEditChange(j).Some?
  {
    if StringField(j, "type") == Some("npm_install") then
      (match StringField(j, "packageName")
       case Some(p) => Some(NpmInstall(p))
       case None => None)
    else LineChange(j)
  }

  /** `z.array(z.string()).optional()` on the key `newPackages`: `Some(None)` when the key
      is absent, `Some(Some(ps))` for an array of strings, `None` (rejected) otherwise. */
  function ParsePackages(j: Json): Option<Option<seq<string>>>
  {
    match Field(j, "newPackages")
    case None => Some(None)
    case Some(JArr(items)) =>
      if forall k :: 0 <= k < |items| ==> items[k].JStr? then
        Some(Some(seq(|items|, k requires 0 <= k < |items| => items[k].s)))
      else None
    case Some(_) => None
  }

  /** `EditSchema.parse`: an object whose `explain`, `filename` and `code` are strings,
      whose `change` passes `EditTypeSchema`, and whose `newPackages` is absent or an
      array of strings; other keys are dropped. */
  function ParseEdit(j: Json): (r: Option<Edit>)
    ensures r.Some? ==> IsLineEdit(r.value.change) && j.JObj?
    ensures r.Some? ==>
      Field(j, "explain") == Some(JStr(r.value.explain)) &&
      Field(j, "filename") == Some(JStr(r.value.filename)) &&
      Field(j, "code") == Some(JStr(r.value.code)) &&
      Field(j, "change").Some? && ParseEditChange(Field(j, "change").value) == Some(r.value.change)
    ensures r.Some? ==> ParsePackages(j) == Some(r.value.newPackages)
    ensures r.Some? <==>
      StringField(j, "explain").Some? && StringField(j, "filename").Some? && StringField(j, "code").Some? &&
      Field(j, "change").Some? && ParseEditChange(Field(j, "change").value).Some? && ParsePackages(j).Some?
  {
    match (StringField(j, "explain"), StringField(j, "filename"), StringField(j, "code"))
    case (Some(ex), Some(fn), Some(code)) =>
      (match Field(j, "change")
       case Some(cj) =>
         (match (ParseEditChange(cj), ParsePackages(j))
          case (Some(c), Some(ps)) => Some(Edit(ex, fn, c, code, ps))
          case _ => None)
       case None => None)
    case _ => None
  }

  /** The keys `EditSchema` declares. */
  const EditKeys: set<string> := {"explain", "filename", "change", "code", "newPackages"}

  /** The object `EditSchema.parse` returns: `z.object` keeps the declared keys and strips
      every other one. */
  function SchemaOutput(j: Json): (r: Json)
    requires j.JObj?
    ensures r.JObj? && forall k :: Field(r, k) == if k in EditKeys then Field(j, k) else None
  {
    JObj(map k | k in j.fields && k in EditKeys :: j.fields[k])
  }

  /** `edit.type.type`, the way src/edit-processor.ts reads an edit's change: reading a key
      of `undefined` or `null` throws a `TypeError`. */
  function ReadTypeType(edit: Json): (r: Result<Option<Json>>)
    ensures r.Err? <==> Field(edit, "type").None? || Field(edit, "type") == Some(JNull)
    ensures r.Ok? ==> r.value == Field(Field(edit, "type").value, "type")
  {
    match Field(edit, "type")
    case None => Err("TypeError: cannot read properties of undefined")
    case Some(JNull) => Err("TypeError: cannot read properties of null")
    case Some(t) => Ok(Field(t, "type"))
  }

  /** As written, `confirmEdit` throws on every edit the adapters yield: those are outputs
      of `EditSchema`, which declares no `type` key, so `edit.type` is `undefined`. */
  lemma ProcessorReadThrows(j: Json)
    requires ParseEdit(j).Some?
    ensures Field(SchemaOutput(j), "type").None?
    ensures ReadTypeType(SchemaOutput(j)).Err?
  {
    assert "type" !in EditKeys;
  }

  /** The intended reading, which the model's edit processor uses: the change descriptor
      under `change` of the schema's output is exactly the change of the parsed edit. */
  lemma ChangeReadBack(j: Json)
    requires ParseEdit(j).Some?
    ensures Field(SchemaOutput(j), "change") == Field(j, "change")
    ensures ParseEditChange(Field(SchemaOutput(j), "change").value) == Some(ParseEdit(j).value.change)
  {
    assert "change" in EditKeys;
  }

  /** The older `EditSchema` of src/call-ai.ts: `explain`, `filename`, `code` strings and
      the change under the key `type`; there is no `newPackages`. */
  function ParseLegacyEdit(j: Json): (r: Option<Edit>)
    ensures r.Some? ==> r.value.change != Skip && r.value.newPackages == None
    ensures r.Some? ==>
      Field(j, "filename") == Some(JStr(r.value.filename)) &&
      Field(j, "type").Some? && ParseLegacyChange(Field(j, "type").value) == Some(r.value.change)
    ensures r.Some? ==> Field(j, "explain") == Some(JStr(r.value.explain)) && Field(j, "code") == Some(JStr(r.value.code))
    ensures r.Some? <==>
      StringField(j, "explain").Some? && StringField(j, "filename").Some? && StringField(j, "code").Some? &&
      Field(j, "type").Some? && ParseLegacyChange(Field(j, "type").value).Some?
  {
    match (StringField(j, "explain"), StringField(j, "filename"), StringField(j, "code"))
    case (Some(ex), Some(fn), Some(code)) =>
      (match Field(j, "type")
       case Some(cj) =>
         (match ParseLegacyChange(cj)
          case Some(c) => Some(Edit(ex, fn, c, code, None))
          case None => None)
       case None => None)
    case _ => None
  }

  function EncodePackages(ps: Option<seq<string>>): map<string, Json>
  {
    match ps
    case None => map[]
    case Some(names) => map["newPackages" := JArr(seq(|names|, k requires 0 <= k < |names| => JStr(names[k])))]
  }

  /** The JSON an edit is written as (keys as in src/types.ts). */
  function EncodeEdit(e: Edit): Json
  {
    JObj(map[
      "explain" := JStr(e.explain),
      "filename" := JStr(e.filename),
      "change" := EncodeChange(e.change),
      "code" := JStr(e.code)] + EncodePackages(e.newPackages))
  }

  /** Every line change, whatever its numbers (zero, negative, or a range whose end is
      before its start), is accepted by both change schemas and read back unchanged. */
  lemma ChangeRoundTrip(c: Change)
    requires IsLineEdit(c)
    ensures ParseEditChange(EncodeChange(c)) == Some(c)
    ensures ParseCorrectedChange(EncodeChange(c)) == Some(c)
    ensures ParseLegacyChange(EncodeChange(c)) == Some(c)
  {
    var j := EncodeChange(c);
    assert Field(j, "type") == Some(JStr(Tag(c)));
  }

  /** A skip correction is accepted by the verifier's schema and by no edit schema. */
  lemma SkipOnlyCorrects()
    ensures ParseCorrectedChange(EncodeChange(Skip)) == Some(Skip)
    ensures ParseEditChange(EncodeChange(Skip)) == None
    ensures ParseLegacyChange(EncodeChange(Skip)) == None
  {
    assert Field(EncodeChange(Skip), "type") == Some(JStr("skip"));
  }

  /** `z.object` ignores keys it does not declare: an object with extra keys, such as the
      `reason` the verifier is asked to give, reads as the same change under every change
      schema. */
  lemma {:induction false} ExtraKeysIgnored(fields: map<string, Json>, extra: map<string, Json>)
    requires forall k :: k in extra ==> k !in ChangeKeys
    ensures ParseEditChange(JObj(fields + extra)) == ParseEditChange(JObj(fields))
    ensures ParseCorrectedChange(JObj(fields + extra)) == ParseCorrectedChange(JObj(fields))
    ensures ParseLegacyChange(JObj(fields + extra)) == ParseLegacyChange(JObj(fields))
  {
    forall k | k in ChangeKeys
      ensures Field(JObj(fields + extra), k) == Field(JObj(fields), k)
    {
      assert k !in extra;
    }
  }

  /** The keys the change schemas read. */
  const ChangeKeys: set<string> := {"type", "atLine", "fromLineNumber", "toLineNumber", "packageName"}

  /** A skip with a reason, as the verifier's prompt asks for, is a skip. */
  lemma SkipWithReason(reason: string)
    ensures ParseCorrectedChange(JObj(map["type" := JStr("skip"), "reason" := JStr(reason)])) == Some(Skip)
  {
    assert Field(JObj(map["type" := JStr("skip"), "reason" := JStr(reason)]), "type") == Some(JStr("skip"));
  }

  /** The correction schema accepts every change the edit schema accepts, and accepts
      nothing else except a skip. */
  lemma CorrectedExtendsEditChange(j: Json)
    ensures ParseEditChange(j).Some? ==> ParseCorrectedChange(j) == ParseEditChange(j)
    ensures ParseCorrectedChange(j).Some? && ParseCorrectedChange(j).value != Skip ==>
      ParseEditChange(j) == ParseCorrectedChange(j)
  {
  }

  /** Every edit with a line change is accepted by `EditSchema` and read back unchanged. */
  lemma EditRoundTrip(e: Edit)
    requires IsLineEdit(e.change)
    ensures ParseEdit(EncodeEdit(e)) == Some(e)
  {
    var j := EncodeEdit(e);
    ChangeRoundTrip(e.change);
    assert Field(j, "explain") == Some(JStr(e.explain));
    assert Field(j, "filename") == Some(JStr(e.filename));
    assert Field(j, "code") == Some(JStr(e.code));
    assert Field(j, "change") == Some(EncodeChange(e.change));
    match e.newPackages
    case None =>
      assert "newPackages" !in j.fields;
    case Some(names) =>
      var items := seq(|names|, k requires 0 <= k < |names| => JStr(names[k]));
      assert Field(j, "newPackages") == Some(JArr(items));
      assert seq(|items|, k requires 0 <= k < |items| => items[k].s) == names;
  }
}
