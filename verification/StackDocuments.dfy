/**
 Which documents are stack identities, with every name written out:
 tools/bigcherry/backend/identity.py.
 */
module StackDocuments {
  import opened Wrappers
  import opened Strings
  import opened IdentityTree
  import opened NamedEntries
  import opened BackendIdentity

  // ------------------------------------------------------------------
  // Component names, by the structure of their regular expression

  predicate Alphanumeric(c: char) { 'a' <= c <= 'z' || '0' <= c <= '9' }

  /** `[a-z0-9]+` */
  predicate IsWord(s: string) { s != "" && forall i :: 0 <= i < |s| ==> Alphanumeric(s[i]) }

  /** `(?:[._-][a-z0-9]+)*` */
  ghost predicate IsTail(s: string)
    decreases |s|
  {
    s == "" || exists j :: 1 < j <= |s| && s[0] in "._-" && IsWord(s[1..j]) && IsTail(s[j..])
  }

  /** `[a-z][a-z0-9]*(?:[._-][a-z0-9]+)*` */
  ghost predicate IsName(s: string) {
    exists j :: 0 < j <= |s| && 'a' <= s[0] <= 'z' && IsWord(s[..j]) && IsTail(s[j..])
  }

  /** Characters of a name, no two separators together and none at the end. */
  predicate Spaced(s: string) {
    && (forall i :: 0 <= i < |s| ==> Alphanumeric(s[i]) || s[i] in "._-")
    && (forall i :: 0 <= i < |s| && s[i] in "._-" ==> i + 1 < |s| && Alphanumeric(s[i + 1]))
  }

  /** Where the word at the front of `s` ends. */
  function WordEnd(s: string): (n: nat)
    ensures n <= |s| && (forall i :: 0 <= i < n ==> Alphanumeric(s[i])) && (n < |s| ==> !Alphanumeric(s[n]))
  {
    if s == "" || !Alphanumeric(s[0]) then 0 else 1 + WordEnd(s[1..])
  }

  lemma {:induction false} SpacedRest(s: string, j: nat)
    requires Spaced(s) && j <= |s|
    ensures Spaced(s[j..])
  {
    forall i | 0 <= i < |s[j..]| && s[j..][i] in "._-" ensures i + 1 < |s[j..]| && Alphanumeric(s[j..][i + 1]) {
      assert s[j..][i] == s[i + j];
    }
  }

  lemma {:induction false} WordThenSpaced(s: string, j: nat)
    requires j <= |s| && (forall i :: 0 <= i < j ==> Alphanumeric(s[i])) && Spaced(s[j..])
    ensures Spaced(s)
  {
    forall i | 0 <= i < |s|
      ensures Alphanumeric(s[i]) || s[i] in "._-"
      ensures s[i] in "._-" ==> i + 1 < |s| && Alphanumeric(s[i + 1])
    {
      if j <= i { assert s[i] == s[j..][i - j]; }
    }
  }

  lemma {:induction false} TailIff(s: string)
    ensures IsTail(s) <==> Spaced(s) && (s == "" || s[0] in "._-")
    decreases |s|
  {
    if IsTail(s) && s != "" {
      var j :| 1 < j <= |s| && s[0] in "._-" && IsWord(s[1..j]) && IsTail(s[j..]);
      TailIff(s[j..]);
      var rest := s[1..];
      assert rest[j - 1..] == s[j..];
      forall i | 0 <= i < j - 1 ensures Alphanumeric(rest[i]) { assert rest[i] == s[1..j][i]; }
      WordThenSpaced(rest, j - 1);
      AfterSeparator(s);
    }
    if Spaced(s) && s != "" && s[0] in "._-" {
      var j := 1 + WordEnd(s[1..]);
      assert Alphanumeric(s[1]) && s[1] == s[1..][0];
      assert IsWord(s[1..j]);
      SpacedRest(s, j);
      TailIff(s[j..]);
      assert j < |s| ==> s[j] == s[1..][j - 1];
      assert IsTail(s[j..]);
    }
  }

  lemma {:induction false} AfterSeparator(s: string)
    requires s != "" && s[0] in "._-" && Spaced(s[1..]) && 1 < |s| && Alphanumeric(s[1])
    ensures Spaced(s)
  {
    forall i | 0 <= i < |s|
      ensures Alphanumeric(s[i]) || s[i] in "._-"
      ensures s[i] in "._-" ==> i + 1 < |s| && Alphanumeric(s[i + 1])
    {
      if 1 <= i { assert s[i] == s[1..][i - 1]; }
    }
  }

  /** The accepted component names are exactly the matches of the regular expression. */
  lemma {:induction false} ComponentNameIff(s: string)
    ensures IsComponentName(s) <==> IsName(s)
  {
    if IsComponentName(s) {
      SpacedIff(s);
      var j := WordEnd(s);
      assert IsWord(s[..j]);
      SpacedRest(s, j);
      TailIff(s[j..]);
      assert j < |s| ==> s[j..][0] == s[j];
      assert IsTail(s[j..]);
    }
    if IsName(s) {
      var j :| 0 < j <= |s| && 'a' <= s[0] <= 'z' && IsWord(s[..j]) && IsTail(s[j..]);
      TailIff(s[j..]);
      forall i | 0 <= i < j ensures Alphanumeric(s[i]) { assert s[i] == s[..j][i]; }
      WordThenSpaced(s, j);
      SpacedIff(s);
    }
  }

  lemma {:induction false} SpacedIff(s: string)
    ensures IsComponentName(s) <==> s != "" && 'a' <= s[0] <= 'z' && Spaced(s)
  {
    if IsComponentName(s) {
      forall i | 0 <= i < |s| && s[i] in "._-" ensures i + 1 < |s| && Alphanumeric(s[i + 1]) {
        assert i != |s| - 1;
        assert !(Separator(s[i + 1 - 1]) && Separator(s[i + 1]));
      }
    }
  }

  // ------------------------------------------------------------------
  // Documents

  ghost predicate AttributeFits(name: string, d: Tree) {
    && name in {"name", "vendor", "version", "build_id", "api_version", "abi_version", "soname", "artifact_sha256"}
    && d.Dict? && d.fields.Keys == {"state", "value"}
    && (|| (d.fields["state"] == Text("present") && d.fields["value"].Text? && ValueFits(name, d.fields["value"].s))
        || (d.fields["state"] in {Text("missing"), Text("unknown")} && d.fields["value"] == Null))
  }

  /** Some character is no white space, and an artifact digest is 64 lower-case hexadecimal digits. */
  ghost predicate ValueFits(name: string, value: string) {
    && (exists i :: 0 <= i < |value| && !Space(value[i]))
    && (name == "artifact_sha256" ==> |value| == 64 && forall c :: c in value ==> c in "0123456789abcdef")
  }

  ghost predicate ComponentFits(name: string, d: Tree) {
    && IsName(name)
    && d.Dict? && d.fields.Keys == {"state", "attributes"} && d.fields["attributes"].Dict?
    && var attributes := d.fields["attributes"].fields;
    && (|| d.fields["state"] == Text("present")
        || (d.fields["state"] in {Text("missing"), Text("unknown")} && attributes == map[]))
    && forall k :: k in attributes ==> AttributeFits(k, attributes[k])
  }

  /** `[a-z][a-z0-9_-]*` */
  ghost predicate BackendFits(s: string) {
    s != "" && 'a' <= s[0] <= 'z' && forall c :: c in s ==> Alphanumeric(c) || c in "_-"
  }

  ghost predicate StackFits(d: Tree) {
    && d.Dict? && d.fields.Keys == {"schema", "backend", "components"}
    && d.fields["schema"] == Text("bigcherry/resolved-stack-identity/v1")
    && d.fields["backend"].Text? && BackendFits(d.fields["backend"].s)
    && d.fields["components"].Dict?
    && var components := d.fields["components"].fields;
    && components != map[]
    && forall k :: k in components ==> ComponentFits(k, components[k])
  }

  lemma {:induction false} Sha256Iff(s: string)
    ensures IsSha256(s) <==> |s| == 64 && forall c :: c in s ==> c in "0123456789abcdef"
  {
    if IsSha256(s) {
      forall c | c in s ensures c in "0123456789abcdef" { HexDigit(c); }
    } else if |s| == 64 {
      var i :| 0 <= i < |s| && !(Digit(s[i]) || 'a' <= s[i] <= 'f');
      HexDigit(s[i]);
      assert s[i] in s;
    }
  }

  lemma {:induction false} HexDigit(c: char)
    ensures c in "0123456789abcdef" <==> Digit(c) || 'a' <= c <= 'f'
  {
    var hex := "0123456789abcdef";
    if Digit(c) { assert hex[c as int - '0' as int] == c; }
    if 'a' <= c <= 'f' { assert hex[10 + c as int - 'a' as int] == c; }
  }

  /** An attribute document is accepted exactly when it has this form. */
  lemma {:induction false} AttributeAcceptedIff(name: string, d: Tree)
    ensures ParseAttribute(name, d).Ok? <==> AttributeFits(name, d)
  {
    if d.Dict? && "value" in d.fields && d.fields["value"].Text? { Sha256Iff(d.fields["value"].s); }
  }

  lemma {:induction false} FieldsAcceptedIff<T, E>(fields: map<string, Tree>, parse: (string, Tree) -> Result<T, E>)
    ensures ParseFields(fields, parse).Ok? <==> forall k :: k in fields ==> parse(k, fields[k]).Ok?
  {
    SortedKeysExact(fields.Keys);
    ParseAllExact(SortedKeys(fields.Keys), fields, parse);
  }

  /** The attributes are accepted together when each is, and are none exactly when there is no field. */
  lemma {:induction false} AttributesAcceptedIff(fields: map<string, Tree>)
    ensures ParseFields(fields, ParseAttribute).Ok? <==> forall k :: k in fields ==> AttributeFits(k, fields[k])
    ensures var r := ParseFields(fields, ParseAttribute);
      r.Ok? ==> (r.value == [] <==> fields == map[]) && DistinctNames(r.value, AttributeName())
  {
    var r := ParseFields(fields, ParseAttribute);
    FieldsAcceptedIff(fields, ParseAttribute);
    forall k | k in fields ensures ParseAttribute(k, fields[k]).Ok? <==> AttributeFits(k, fields[k]) {
      AttributeAcceptedIff(k, fields[k]);
    }
    if r.Ok? {
      ParsedAttributes(fields, r.value);
      EntriesEmptyIff(r.value, AttributeName(), PrintAttribute());
    }
  }

  lemma {:induction false} StateIff(d: Tree)
    ensures ParseState(d).Ok? <==> d in {Text("present"), Text("missing"), Text("unknown")}
    ensures ParseState(d) == Ok(Present) <==> d == Text("present")
    ensures ParseState(d) == Ok(Missing) <==> d == Text("missing")
  {
  }

  /** What a component is read from, once its shape is right. */
  lemma {:induction false} ComponentReadIff(name: string, d: Tree)
    requires d.Dict? && d.fields.Keys == {"state", "attributes"} && d.fields["attributes"].Dict?
    ensures var attributes := ParseFields(d.fields["attributes"].fields, ParseAttribute);
      var state := ParseState(d.fields["state"]);
      ParseComponent(name, d).Ok? <==>
        && IsComponentName(name) && attributes.Ok? && state.Ok? && DistinctNames(attributes.value, AttributeName())
        && (state.value == Present || attributes.value == [])
  {
  }

  /** A component document is accepted exactly when it has this form. */
  lemma {:induction false} ComponentAcceptedIff(name: string, d: Tree)
    ensures ParseComponent(name, d).Ok? <==> ComponentFits(name, d)
  {
    if d.Dict? && d.fields.Keys == {"state", "attributes"} && d.fields["attributes"].Dict? {
      ComponentReadIff(name, d);
      ComponentNameIff(name);
      StateIff(d.fields["state"]);
      AttributesAcceptedIff(d.fields["attributes"].fields);
    }
  }

  lemma {:induction false} EntriesEmptyIff<T>(entries: seq<T>, name: T -> string, show: T -> Tree)
    ensures PrintAll(entries, name, show) == map[] <==> entries == []
  {
    if entries != [] { assert name(entries[0]) in PrintAll(entries, name, show); }
  }

  lemma {:induction false} ComponentsAcceptedIff(fields: map<string, Tree>)
    ensures ParseFields(fields, ParseComponent).Ok? <==> forall k :: k in fields ==> ComponentFits(k, fields[k])
    ensures var r := ParseFields(fields, ParseComponent);
      r.Ok? ==> (r.value == [] <==> fields == map[]) && DistinctNames(r.value, ComponentName())
  {
    var r := ParseFields(fields, ParseComponent);
    FieldsAcceptedIff(fields, ParseComponent);
    forall k | k in fields ensures ParseComponent(k, fields[k]).Ok? <==> ComponentFits(k, fields[k]) {
      ComponentAcceptedIff(k, fields[k]);
    }
    if r.Ok? {
      ParsedComponents(fields, r.value);
      EntriesEmptyIff(r.value, ComponentName(), PrintComponent());
    }
  }

  lemma {:induction false} BackendIff(s: string)
    ensures IsBackend(s) <==> BackendFits(s)
  {
    if IsBackend(s) {
      forall c | c in s ensures Alphanumeric(c) || c in "_-" { }
    }
    if BackendFits(s) {
      forall i | 0 <= i < |s| ensures Lower(s[i]) || Digit(s[i]) || s[i] == '_' || s[i] == '-' { assert s[i] in s; }
    }
  }

  /** A document is read as a stack exactly when it has this form. */
  lemma {:induction false} StackAcceptedIff(d: Tree)
    ensures ParseStack(d).Ok? <==> StackFits(d)
  {
    if d.Dict? && d.fields.Keys == {"schema", "backend", "components"} {
      if d.fields["components"].Dict? { ComponentsAcceptedIff(d.fields["components"].fields); }
      if d.fields["backend"].Text? { BackendIff(d.fields["backend"].s); }
    }
  }
}
