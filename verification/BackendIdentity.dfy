/**
 The resolved software stack identity and its canonical document:
 tools/bigcherry/backend/identity.py.
 */
module BackendIdentity {
  import opened Wrappers
  import opened Sorting
  import opened IdentityTree
  import opened NamedEntries

  datatype State = Present | Missing | Unknown
  datatype Attribute = Attribute(name: string, state: State, value: Option<string>)
  datatype Component = Component(name: string, state: State, attributes: seq<Attribute>)
  datatype Stack = Stack(backend: string, components: seq<Component>)

  datatype Error =
    | BadAttributeName | BadState | BlankValue | ValueNotAllowed | BadSha256
    | BadComponentName | DuplicateAttributes | AttributesNotAllowed
    | BadBackend | NoComponents | DuplicateComponents | BadSchema | NotAnObject | WrongFields | WrongType

  // ---------------------------------------------------------------- names and values

  predicate IsAttributeName(s: string) {
    s == "name" || s == "vendor" || s == "version" || s == "build_id" || s == "api_version" || s == "abi_version"
      || s == "soname" || s == "artifact_sha256"
  }

  predicate Lower(c: char) { 'a' <= c <= 'z' }
  predicate Digit(c: char) { '0' <= c <= '9' }
  predicate Separator(c: char) { c == '.' || c == '_' || c == '-' }

  /** A lower-case word of letters and digits, and more such words after single separators. */
  predicate IsComponentName(s: string) {
    && s != "" && Lower(s[0]) && !Separator(s[|s| - 1])
    && (forall i :: 0 <= i < |s| ==> Lower(s[i]) || Digit(s[i]) || Separator(s[i]))
    && (forall i :: 0 < i < |s| ==> !(Separator(s[i - 1]) && Separator(s[i])))
  }

  predicate IsBackend(s: string) {
    s != "" && Lower(s[0]) && forall i :: 0 <= i < |s| ==> Lower(s[i]) || Digit(s[i]) || s[i] == '_' || s[i] == '-'
  }

  predicate IsSha256(s: string) {
    |s| == 64 && forall i :: 0 <= i < |s| ==> Digit(s[i]) || 'a' <= s[i] <= 'f'
  }

  /** `str.isspace` of one character. */
  predicate Space(c: char) {
    || '\t' <= c <= '\r' || '\U{1C}' <= c <= '\U{20}' || c == '\U{85}' || c == '\U{A0}' || c == '\U{1680}'
    || '\U{2000}' <= c <= '\U{200A}' || c == '\U{2028}' || c == '\U{2029}' || c == '\U{202F}' || c == '\U{205F}'
    || c == '\U{3000}'
  }

  predicate Blank(s: string) { forall i :: 0 <= i < |s| ==> Space(s[i]) }

  // ---------------------------------------------------------------- construction

  function MakeAttribute(name: string, state: State, value: Option<string>): Result<Attribute, Error> {
    if !IsAttributeName(name) then Err(BadAttributeName)
    else if state == Present && (value.None? || Blank(value.value)) then Err(BlankValue)
    else if state != Present && value.Some? then Err(ValueNotAllowed)
    else if name == "artifact_sha256" && state == Present && !IsSha256(value.value) then Err(BadSha256)
    else Ok(Attribute(name, state, value))
  }

  function AttributeName(): Attribute -> string { (a: Attribute) => a.name }
  function ComponentName(): Component -> string { (c: Component) => c.name }

  function MakeComponent(name: string, state: State, attributes: seq<Attribute>): Result<Component, Error> {
    if !IsComponentName(name) then Err(BadComponentName)
    else if !DistinctNames(attributes, AttributeName()) then Err(DuplicateAttributes)
    else if state != Present && attributes != [] then Err(AttributesNotAllowed)
    else Ok(Component(name, state, Canonical(attributes, AttributeName())))
  }

  function MakeStack(backend: string, components: seq<Component>): Result<Stack, Error> {
    if !IsBackend(backend) then Err(BadBackend)
    else if components == [] then Err(NoComponents)
    else if !DistinctNames(components, ComponentName()) then Err(DuplicateComponents)
    else Ok(Stack(backend, Canonical(components, ComponentName())))
  }

  predicate ValidAttribute(a: Attribute) { MakeAttribute(a.name, a.state, a.value) == Ok(a) }

  /** What a constructed component satisfies. */
  ghost predicate ValidComponent(c: Component) {
    && IsComponentName(c.name)
    && InNameOrder(c.attributes, AttributeName())
    && (c.state != Present ==> c.attributes == [])
    && forall a :: a in c.attributes ==> ValidAttribute(a)
  }

  ghost predicate ValidStack(x: Stack) {
    && IsBackend(x.backend)
    && x.components != []
    && InNameOrder(x.components, ComponentName())
    && forall c :: c in x.components ==> ValidComponent(c)
  }

  /** The constructor keeps exactly the entries it was given, in name order. */
  lemma {:induction false} ComponentConstructed(name: string, state: State, attributes: seq<Attribute>)
    requires forall a :: a in attributes ==> ValidAttribute(a)
    ensures var r := MakeComponent(name, state, attributes);
      r.Ok? ==> ValidComponent(r.value) && multiset(r.value.attributes) == multiset(attributes)
  {
    var sorted := Canonical(attributes, AttributeName());
    ByNameIsPreorder(AttributeName());
    SortByCorrect(attributes, ByName(AttributeName()));
    SameElements(attributes, sorted);
    if DistinctNames(attributes, AttributeName()) { CanonicalUnique(attributes, attributes, AttributeName()); }
  }

  lemma {:induction false} StackConstructed(backend: string, components: seq<Component>)
    requires forall c :: c in components ==> ValidComponent(c)
    ensures var r := MakeStack(backend, components);
      r.Ok? ==> ValidStack(r.value) && multiset(r.value.components) == multiset(components)
  {
    var sorted := Canonical(components, ComponentName());
    ByNameIsPreorder(ComponentName());
    SortByCorrect(components, ByName(ComponentName()));
    SameElements(components, sorted);
    if DistinctNames(components, ComponentName()) { CanonicalUnique(components, components, ComponentName()); }
  }

  /** Any listing of the same attributes constructs the same component, or fails in the same way. */
  lemma {:induction false} ComponentIgnoresOrder(name: string, state: State, a: seq<Attribute>, b: seq<Attribute>)
    requires multiset(a) == multiset(b)
    ensures MakeComponent(name, state, a) == MakeComponent(name, state, b)
  {
    SameElements(a, b);
    DistinctNamesPermuted(a, b, AttributeName());
    DistinctNamesPermuted(b, a, AttributeName());
    if DistinctNames(a, AttributeName()) { CanonicalUnique(a, b, AttributeName()); }
  }

  lemma {:induction false} StackIgnoresOrder(backend: string, a: seq<Component>, b: seq<Component>)
    requires multiset(a) == multiset(b)
    ensures MakeStack(backend, a) == MakeStack(backend, b)
  {
    SameElements(a, b);
    DistinctNamesPermuted(a, b, ComponentName());
    DistinctNamesPermuted(b, a, ComponentName());
    if DistinctNames(a, ComponentName()) { CanonicalUnique(a, b, ComponentName()); }
  }

  // ---------------------------------------------------------------- documents

  const SCHEMA := "bigcherry/resolved-stack-identity/v1"

  function StateText(s: State): string {
    match s
    case Present => "present"
    case Missing => "missing"
    case Unknown => "unknown"
  }

  function ParseState(d: Tree): Result<State, Error> {
    if d == Text("present") then Ok(Present)
    else if d == Text("missing") then Ok(Missing)
    else if d == Text("unknown") then Ok(Unknown)
    else Err(BadState)
  }

  lemma {:induction false} StateRoundTrip(s: State, d: Tree)
    ensures ParseState(d) == Ok(s) <==> d == Text(StateText(s))
  {
  }

  function AttributeDocument(a: Attribute): Tree {
    Dict(map["state" := Text(StateText(a.state)), "value" := if a.value.Some? then Text(a.value.value) else Null])
  }

  function ParseAttribute(name: string, d: Tree): Result<Attribute, Error> {
    if !IsAttributeName(name) then Err(BadAttributeName)
    else if !d.Dict? then Err(NotAnObject)
    else if d.fields.Keys != {"state", "value"} then Err(WrongFields)
    else
      var raw := d.fields["value"];
      if raw != Null && !raw.Text? then Err(WrongType)
      else
        var state := ParseState(d.fields["state"]);
        if state.Err? then Err(state.error)
        else MakeAttribute(name, state.value, if raw.Text? then Some(raw.s) else None)
  }

  function PrintAttribute(): Attribute -> Tree { (a: Attribute) => AttributeDocument(a) }

  function ComponentDocument(c: Component): Tree {
    Dict(map["state" := Text(StateText(c.state)),
             "attributes" := Dict(PrintAll(c.attributes, AttributeName(), PrintAttribute()))])
  }

  function ParseComponent(name: string, d: Tree): Result<Component, Error> {
    if !IsComponentName(name) then Err(BadComponentName)
    else if !d.Dict? then Err(NotAnObject)
    else if d.fields.Keys != {"state", "attributes"} then Err(WrongFields)
    else if !d.fields["attributes"].Dict? then Err(WrongType)
    else
      var attributes := ParseFields(d.fields["attributes"].fields, ParseAttribute);
      if attributes.Err? then Err(attributes.error)
      else
        var state := ParseState(d.fields["state"]);
        if state.Err? then Err(state.error) else MakeComponent(name, state.value, attributes.value)
  }

  function PrintComponent(): Component -> Tree { (c: Component) => ComponentDocument(c) }

  /** `document`. */
  function StackDocument(x: Stack): Tree {
    Dict(map["schema" := Text(SCHEMA), "backend" := Text(x.backend),
             "components" := Dict(PrintAll(x.components, ComponentName(), PrintComponent()))])
  }

  /** `from_document`. */
  function ParseStack(d: Tree): Result<Stack, Error> {
    if !d.Dict? then Err(NotAnObject)
    else if d.fields.Keys != {"schema", "backend", "components"} then Err(WrongFields)
    else if d.fields["schema"] != Text(SCHEMA) then Err(BadSchema)
    else if !d.fields["backend"].Text? then Err(WrongType)
    else if !d.fields["components"].Dict? then Err(WrongType)
    else
      var components := ParseFields(d.fields["components"].fields, ParseComponent);
      if components.Err? then Err(components.error) else MakeStack(d.fields["backend"].s, components.value)
  }

  // ---------------------------------------------------------------- round trips

  lemma {:induction false} AttributesInvert()
    ensures Inverse(AttributeName(), PrintAttribute(), ParseAttribute, ValidAttribute)
  {
    forall a | ValidAttribute(a) ensures ParseAttribute(AttributeName()(a), PrintAttribute()(a)) == Ok(a) {
      StateRoundTrip(a.state, Text(StateText(a.state)));
    }
    forall k, d | ParseAttribute(k, d).Ok?
      ensures var a := ParseAttribute(k, d).value;
        ValidAttribute(a) && AttributeName()(a) == k && PrintAttribute()(a) == d
    {
      ParsedAttribute(k, d);
    }
  }

  lemma {:induction false} ParsedAttribute(k: string, d: Tree)
    requires ParseAttribute(k, d).Ok?
    ensures var a := ParseAttribute(k, d).value; ValidAttribute(a) && a.name == k && AttributeDocument(a) == d
  {
    var a := ParseAttribute(k, d).value;
    StateRoundTrip(a.state, d.fields["state"]);
    assert d.fields == AttributeDocument(a).fields;
  }

  lemma {:induction false} ComponentRoundTrip(c: Component)
    requires ValidComponent(c)
    ensures ParseComponent(c.name, ComponentDocument(c)) == Ok(c)
  {
    AttributesInvert();
    StateRoundTrip(c.state, Text(StateText(c.state)));
    ParsePrinted(c.attributes, AttributeName(), PrintAttribute(), ParseAttribute, ValidAttribute);
    CanonicalUnique(c.attributes, c.attributes, AttributeName());
    var fields := ComponentDocument(c).fields;
    assert fields["attributes"] == Dict(PrintAll(c.attributes, AttributeName(), PrintAttribute()));
    assert fields.Keys == {"state", "attributes"};
  }

  lemma {:induction false} ParsedAttributes(fields: map<string, Tree>, attributes: seq<Attribute>)
    requires ParseFields(fields, ParseAttribute) == Ok(attributes)
    ensures InNameOrder(attributes, AttributeName()) && Canonical(attributes, AttributeName()) == attributes
    ensures PrintAll(attributes, AttributeName(), PrintAttribute()) == fields
    ensures forall a :: a in attributes ==> ValidAttribute(a)
  {
    AttributesInvert();
    PrintParsed(fields, AttributeName(), PrintAttribute(), ParseAttribute, ValidAttribute, attributes);
  }

  lemma {:induction false} ParsedComponent(k: string, d: Tree)
    requires ParseComponent(k, d).Ok?
    ensures var c := ParseComponent(k, d).value; ValidComponent(c) && c.name == k && ComponentDocument(c) == d
  {
    var c := ParseComponent(k, d).value;
    var fields := d.fields["attributes"].fields;
    var attributes := ParseFields(fields, ParseAttribute).value;
    ParsedAttributes(fields, attributes);
    StateRoundTrip(c.state, d.fields["state"]);
    assert c.attributes == attributes;
    assert d.fields == ComponentDocument(c).fields;
  }

  ghost function ComponentIsValid(): Component -> bool { (c: Component) => ValidComponent(c) }

  lemma {:induction false} ComponentsInvert()
    ensures Inverse(ComponentName(), PrintComponent(), ParseComponent, ComponentIsValid())
  {
    forall c | ValidComponent(c) ensures ParseComponent(c.name, ComponentDocument(c)) == Ok(c) {
      ComponentRoundTrip(c);
    }
    forall k, d | ParseComponent(k, d).Ok?
      ensures var c := ParseComponent(k, d).value; ValidComponent(c) && c.name == k && ComponentDocument(c) == d
    {
      ParsedComponent(k, d);
    }
  }

  /** Every stack is read back from its own document. */
  lemma {:induction false} StackRoundTrip(x: Stack)
    requires ValidStack(x)
    ensures ParseStack(StackDocument(x)) == Ok(x)
  {
    ComponentsInvert();
    ParsePrinted(x.components, ComponentName(), PrintComponent(), ParseComponent, ComponentIsValid());
    CanonicalUnique(x.components, x.components, ComponentName());
    var fields := StackDocument(x).fields;
    assert fields["components"] == Dict(PrintAll(x.components, ComponentName(), PrintComponent()));
    assert fields.Keys == {"schema", "backend", "components"};
  }

  lemma {:induction false} ParsedComponents(fields: map<string, Tree>, components: seq<Component>)
    requires ParseFields(fields, ParseComponent) == Ok(components)
    ensures InNameOrder(components, ComponentName()) && Canonical(components, ComponentName()) == components
    ensures PrintAll(components, ComponentName(), PrintComponent()) == fields
    ensures forall c :: c in components ==> ValidComponent(c)
  {
    ComponentsInvert();
    PrintParsed(fields, ComponentName(), PrintComponent(), ParseComponent, ComponentIsValid(), components);
    forall c | c in components ensures ValidComponent(c) { assert ComponentIsValid()(c); }
  }

  /** Every accepted document is the document of the stack it is read as: there is one document per stack. */
  lemma {:induction false} AcceptedIsCanonical(d: Tree)
    requires ParseStack(d).Ok?
    ensures ValidStack(ParseStack(d).value) && StackDocument(ParseStack(d).value) == d
  {
    var x := ParseStack(d).value;
    var fields := d.fields["components"].fields;
    var components := ParseFields(fields, ParseComponent).value;
    ParsedComponents(fields, components);
    assert x.components == components;
    assert d.fields == StackDocument(x).fields;
  }

  /** With an injective encoding and digest, equal fingerprints mean equal stacks. */
  lemma {:induction false} FingerprintIdentifies(x: Stack, y: Stack, digest: Tree -> string)
    requires ValidStack(x) && ValidStack(y)
    requires forall a, b :: digest(a) == digest(b) ==> a == b
    ensures digest(StackDocument(x)) == digest(StackDocument(y)) <==> x == y
  {
    StackRoundTrip(x);
    StackRoundTrip(y);
  }
}
