/**
 Construction of a typed payload from the fields of a JSON object. The fields that the constructor reads
 before the model validates its types can hold any JSON value.
 */
module Construction {
  import opened Wrappers
  import opened Text
  import opened Errors
  import opened Records

  /** A JSON value, as far as it matters here; of an object only the keys are read. */
  datatype Json =
    | Null | Boolean(b: bool) | Number(zero: bool) | Str(s: string) | List(items: seq<Json>) | Obj(keys: seq<string>)

  type Fields = map<string, Json>

  /** The fields that only the model's own validation reads; `wellTyped` is its verdict on them. */
  datatype Rest = Rest(wellTyped: bool, lessons: Option<string>, text: string, version: int)

  predicate Truthy(j: Json) {
    match j
    case Null => false
    case Boolean(b) => b
    case Number(zero) => !zero
    case Str(s) => s != ""
    case List(items) => items != []
    case Obj(keys) => keys != []
  }

  // ----------------------------------------------------------------- what passes

  predicate GoodIdentifier(f: Fields, key: string) { key in f && f[key].Str? && IsIdentifier(f[key].s) }

  /** An absent field passes the constructor's check; the model's validation asks for it later. */
  predicate Passes(f: Fields, key: string) { key !in f || GoodIdentifier(f, key) }

  /** The pattern match raises a type error for a value that is neither empty nor a string. */
  predicate BreaksMatch(f: Fields, key: string) { key in f && Truthy(f[key]) && !f[key].Str? }

  /** What `for ref in value` yields; nothing if the value cannot be iterated. */
  function Iterated(j: Json): Option<seq<Json>> {
    match j
    case Str(s) => Some(seq(|s|, i requires 0 <= i < |s| => Str([s[i]])))
    case List(items) => Some(items)
    case Obj(keys) => Some(seq(|keys|, i requires 0 <= i < |keys| => Str(keys[i])))
    case _ => None
  }

  predicate IsReference(item: Json) { item.Str? && IsNaturalKey(item.s) }

  predicate AllReferences(items: seq<Json>) { forall i :: 0 <= i < |items| ==> IsReference(items[i]) }

  function Strings(items: seq<Json>): seq<string>
    requires forall i :: 0 <= i < |items| ==> items[i].Str?
  {
    seq(|items|, i requires 0 <= i < |items| => items[i].s)
  }

  /** The references a value stands for, each once; nothing if it cannot be read as references. */
  function References(j: Json): Option<seq<string>> {
    var items := Iterated(j);
    if items.Some? && AllReferences(items.value) then Some(Distinct(Strings(items.value))) else None
  }

  /** An absent or empty value is not looked at. */
  function Supersedes(f: Fields): Option<seq<string>> {
    if "supersedes" !in f || !Truthy(f["supersedes"]) then Some([]) else References(f["supersedes"])
  }

  /** The model's own validation, after the constructor's checks: presence and types. */
  predicate ModelAccepts(f: Fields, rest: Rest) {
    && "project" in f && "identifier" in f && rest.wellTyped
    && ("supersedes" in f && !Truthy(f["supersedes"]) ==> f["supersedes"] == List([]))
  }

  function StrOf(f: Fields, key: string): string { if key in f && f[key].Str? then f[key].s else "" }

  function Built(ptype: string, f: Fields, rest: Rest): Payload {
    var refs := Supersedes(f);
    Payload(ptype, StrOf(f, "project"), StrOf(f, "identifier"), if refs.Some? then refs.value else [],
            rest.lessons, rest.text, rest.version)
  }

  predicate SupersedesItself(ptype: string, f: Fields, rest: Rest) {
    Built(ptype, f, rest).NaturalKey() in Built(ptype, f, rest).supersedes
  }

  predicate Constructible(ptype: string, f: Fields, rest: Rest) {
    && "self" !in f && GoodIdentifier(f, "project") && GoodIdentifier(f, "identifier")
    && Supersedes(f).Some? && ModelAccepts(f, rest) && !SupersedesItself(ptype, f, rest)
  }

  /**
   The inputs whose construction fails with something other than an identifier or model validation
   error: a key that collides with the receiver, a value the pattern match or the reference loop breaks
   on, a reference without natural-key shape, or a payload that supersedes itself.
   */
  predicate Evades(ptype: string, f: Fields, rest: Rest) {
    || "self" in f
    || BreaksMatch(f, "project")
    || (Passes(f, "project") && BreaksMatch(f, "identifier"))
    || (Passes(f, "project") && Passes(f, "identifier")
        && (Supersedes(f).None? || (ModelAccepts(f, rest) && SupersedesItself(ptype, f, rest))))
  }

  // ----------------------------------------------------------------- the constructor

  /** The check of one identifier, if the field is present. */
  method CheckIdentifier(f: Fields, key: string) returns (raised: Option<Exc>)
    ensures raised.None? <==> Passes(f, key)
    ensures raised.Some? ==> raised.value == if BreaksMatch(f, key) then Other else IdentifierValidation
  {
    if key !in f { return None; }
    var value := f[key];
    if !Truthy(value) { return Some(IdentifierValidation); }
    if !value.Str? { return Some(Other); }
    if !IsIdentifier(value.s) { return Some(IdentifierValidation); }
    return None;
  }

  /** The items without later repetitions; an item that cannot be hashed raises a type error. */
  method Unique(items: seq<Json>) returns (r: Result<seq<Json>, Exc>)
    ensures r.Success? <==> forall i :: 0 <= i < |items| ==> !items[i].List? && !items[i].Obj?
    ensures r.Success? ==> r.value == Distinct(items)
    ensures r.Failure? ==> r.error == Other
  {
    var unique: seq<Json> := [];
    for k := 0 to |items|
      invariant forall i :: 0 <= i < k ==> !items[i].List? && !items[i].Obj?
      invariant unique == Distinct(items[..k])
    {
      assert items[..k + 1][..k] == items[..k];
      if items[k].List? || items[k].Obj? { return Failure(Other); }
      if items[k] !in unique { unique := unique + [items[k]]; }
    }
    assert items[..|items|] == items;
    return Success(unique);
  }

  /** Reads the references: no repetition, each of natural-key shape. */
  method CheckReferences(value: Json) returns (r: Result<seq<string>, Exc>)
    ensures r.Success? <==> References(value).Some?
    ensures r.Success? ==> r.value == References(value).value
    ensures r.Failure? ==> r.error == Other || r.error == SupersessionValidation
  {
    var items := Iterated(value);
    if items.None? { return Failure(Other); }
    var unique := Unique(items.value);
    if unique.Failure? {
      assert !AllReferences(items.value);
      return Failure(unique.error);
    }
    SameReferences(items.value);
    var bad := FirstBad(unique.value);
    if bad.Some? { return Failure(if bad.value.Str? then SupersessionValidation else Other); }
    DistinctStrings(items.value);
    return Success(Strings(unique.value));
  }

  method FirstBad(items: seq<Json>) returns (bad: Option<Json>)
    ensures bad.None? <==> AllReferences(items)
  {
    for i := 0 to |items|
      invariant forall k :: 0 <= k < i ==> IsReference(items[k])
    {
      if !IsReference(items[i]) { return Some(items[i]); }
    }
    return None;
  }

  /** Dropping repetitions drops no kind of item. */
  lemma SameReferences(items: seq<Json>)
    ensures AllReferences(Distinct(items)) <==> AllReferences(items)
  {
    var unique := Distinct(items);
    if AllReferences(unique) {
      forall i | 0 <= i < |items| ensures IsReference(items[i]) {
        assert items[i] in unique;
        var k :| 0 <= k < |unique| && unique[k] == items[i];
      }
    }
    if AllReferences(items) {
      forall k | 0 <= k < |unique| ensures IsReference(unique[k]) {
        assert unique[k] in items;
        var i :| 0 <= i < |items| && items[i] == unique[k];
      }
    }
  }

  /** Reading strings commutes with dropping repetitions. */
  lemma {:induction false} DistinctStrings(items: seq<Json>)
    requires AllReferences(items)
    ensures AllReferences(Distinct(items)) && Strings(Distinct(items)) == Distinct(Strings(items))
  {
    SameReferences(items);
    if items != [] {
      var n := |items| - 1;
      var init := items[..n];
      DistinctStrings(init);
      assert Strings(items)[..n] == Strings(init);
      SameMembers(Distinct(init), items[n]);
    }
  }

  lemma SameMembers(items: seq<Json>, item: Json)
    requires AllReferences(items) && item.Str?
    ensures item in items <==> item.s in Strings(items)
  {
    if item in items {
      var k :| 0 <= k < |items| && items[k] == item;
      assert Strings(items)[k] == item.s;
    }
    if item.s in Strings(items) {
      var k :| 0 <= k < |items| && Strings(items)[k] == item.s;
      assert items[k] == item;
    }
  }

  /** The payload carries everything it was constructed from. */
  ghost predicate Carries(p: Payload, ptype: string, f: Fields, rest: Rest) {
    && p.ptype == ptype && p.lessons == rest.lessons && p.body == rest.text && p.version == rest.version
    && "project" in f && f["project"] == Str(p.project) && "identifier" in f && f["identifier"] == Str(p.identifier)
    && ListsReferences(f, p.supersedes)
  }

  /** These are the items of the field, each once; an absent or empty field has none. */
  ghost predicate ListsReferences(f: Fields, refs: seq<string>) {
    if "supersedes" !in f || !Truthy(f["supersedes"]) then refs == []
    else
      && Iterated(f["supersedes"]).Some?
      && (forall i, j :: 0 <= i < j < |refs| ==> refs[i] != refs[j])
      && (forall x :: x in refs <==> Str(x) in Iterated(f["supersedes"]).value)
  }

  lemma BuiltCarries(ptype: string, f: Fields, rest: Rest)
    requires Constructible(ptype, f, rest)
    ensures Carries(Built(ptype, f, rest), ptype, f, rest)
  {
    if "supersedes" in f && Truthy(f["supersedes"]) {
      var items := Iterated(f["supersedes"]).value;
      forall x ensures x in Distinct(Strings(items)) <==> Str(x) in items {
        SameMembers(items, Str(x));
      }
    }
  }

  /** Constructions whose lessons or text differ have different hashes, whatever else they share. */
  lemma ContentTells(ptype: string, f: Fields, a: Rest, b: Rest)
    requires Constructible(ptype, f, a) && Constructible(ptype, f, b)
    ensures Hash(Built(ptype, f, a)) == Hash(Built(ptype, f, b)) <==> a.lessons == b.lessons && a.text == b.text
  {
    HashIff(Built(ptype, f, a), Built(ptype, f, b));
  }

  /** The fields of a JSON object that says what the payload says. */
  function FieldsOf(p: Payload): Fields {
    map["project" := Str(p.project), "identifier" := Str(p.identifier), "supersedes" := List(Quoted(p.supersedes))]
  }

  function Quoted(refs: seq<string>): seq<Json> { seq(|refs|, i requires 0 <= i < |refs| => Str(refs[i])) }

  /** Every valid payload comes back from its fields, references in their order. */
  lemma EveryPayloadIsCarried(p: Payload)
    requires p.Valid()
    ensures
      var f, rest := FieldsOf(p), Rest(true, p.lessons, p.body, p.version);
      Constructible(p.ptype, f, rest) && Built(p.ptype, f, rest) == p
  {
    var f := FieldsOf(p);
    var items := Quoted(p.supersedes);
    assert Strings(items) == p.supersedes;
    DistinctKeeps(p.supersedes);
    assert Iterated(f["supersedes"]) == Some(items) && AllReferences(items);
    assert Supersedes(f) == Some(p.supersedes);
  }

  /** Exactly the constructible fields give a payload, and the way a construction fails is known beforehand. */
  method Construct(ptype: string, f: Fields, rest: Rest) returns (r: Result<Payload, Exc>)
    ensures r.Success? <==> Constructible(ptype, f, rest)
    ensures r.Success? ==> r.value == Built(ptype, f, rest) && r.value.Valid() && Carries(r.value, ptype, f, rest)
    ensures r.Failure? ==>
      if Evades(ptype, f, rest) then r.error == Other || r.error == SupersessionValidation
      else r.error == IdentifierValidation || r.error == PydanticValidation
  {
    if "self" in f { return Failure(Other); }
    var raised := CheckIdentifier(f, "project");
    if raised.Some? { return Failure(raised.value); }
    raised := CheckIdentifier(f, "identifier");
    if raised.Some? { return Failure(raised.value); }
    if "supersedes" in f && Truthy(f["supersedes"]) {
      var refs := CheckReferences(f["supersedes"]);
      if refs.Failure? { return Failure(refs.error); }
    }
    if !ModelAccepts(f, rest) { return Failure(PydanticValidation); }
    var p := Built(ptype, f, rest);
    if p.NaturalKey() in p.supersedes { return Failure(SupersessionValidation); }
    ReferencesAreKeys(f);
    BuiltCarries(ptype, f, rest);
    return Success(p);
  }

  lemma ReferencesAreKeys(f: Fields)
    requires Supersedes(f).Some?
    ensures var refs := Supersedes(f).value;
      && (forall i :: 0 <= i < |refs| ==> IsNaturalKey(refs[i]))
      && (forall i, j :: 0 <= i < j < |refs| ==> refs[i] != refs[j])
  {
    if "supersedes" in f && Truthy(f["supersedes"]) {
      var strings := Strings(Iterated(f["supersedes"]).value);
      forall x | x in Distinct(strings) ensures IsNaturalKey(x) { assert x in strings; }
    }
  }
}
