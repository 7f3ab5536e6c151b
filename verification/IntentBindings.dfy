/** Reviewed choices of database and schema for views, as a safe-copy destination lists them. */
module IntentBindings {
  import opened Options
  import opened Json
  import opened TextOrder
  import opened IntentValues

  const MAX_BINDINGS: nat := 500

  datatype Binding = Binding(sourceFile: string, targetFile: string, source: map<string, string>, destination: map<string, string>)

  predicate IsNamespace(rules: Rules, v: Option<Json>) {
    && v.Some? && OnlyKeys(v.value, {"catalog", "database", "schema"})
    && (forall k :: k in v.value.fields ==> v.value.fields[k].Text? && rules.namespaceName(v.value.fields[k].text))
    && ("catalog" in v.value.fields && "database" in v.value.fields ==> v.value.fields["catalog"] == v.value.fields["database"])
  }

  function Namespace(rules: Rules, v: Option<Json>): map<string, string>
    requires IsNamespace(rules, v)
  {
    map k | k in v.value.fields :: v.value.fields[k].text
  }

  predicate IsViewPath(rules: Rules, v: Option<Json>) {
    v.Some? && v.value.Text? && rules.viewPath(v.value.text)
  }

  predicate IsBinding(rules: Rules, v: Json) {
    && v.Object? && v.fields.Keys == {"sourceFileName", "targetFileName", "source", "destination"}
    && IsViewPath(rules, Get(v, "sourceFileName")) && IsViewPath(rules, Get(v, "targetFileName"))
    && IsNamespace(rules, Get(v, "source")) && IsNamespace(rules, Get(v, "destination"))
  }

  function ParseBinding(rules: Rules, v: Json): Binding
    requires IsBinding(rules, v)
  {
    Binding(v.fields["sourceFileName"].text, v.fields["targetFileName"].text,
            Namespace(rules, Get(v, "source")), Namespace(rules, Get(v, "destination")))
  }

  function BindingJson(b: Binding): Json {
    Object(map["sourceFileName" := Text(b.sourceFile), "targetFileName" := Text(b.targetFile),
               "source" := Object(TextMap(b.source)), "destination" := Object(TextMap(b.destination))])
  }

  lemma NamespaceAgain(rules: Rules, v: Option<Json>)
    requires IsNamespace(rules, v)
    ensures var again := Some(Object(TextMap(Namespace(rules, v))));
            IsNamespace(rules, again) && Namespace(rules, again) == Namespace(rules, v)
  {}

  lemma BindingAgain(rules: Rules, v: Json)
    requires IsBinding(rules, v)
    ensures var again := BindingJson(ParseBinding(rules, v));
            IsBinding(rules, again) && ParseBinding(rules, again) == ParseBinding(rules, v)
  {
    NamespaceAgain(rules, Get(v, "source"));
    NamespaceAgain(rules, Get(v, "destination"));
    hide IsNamespace, Namespace, BindingJson;
    BindingFields(ParseBinding(rules, v));
  }

  lemma BindingFields(b: Binding)
    ensures var v := BindingJson(b);
            && v.Object? && v.fields.Keys == {"sourceFileName", "targetFileName", "source", "destination"}
            && v.fields["sourceFileName"] == Text(b.sourceFile) && v.fields["targetFileName"] == Text(b.targetFile)
            && v.fields["source"] == Object(TextMap(b.source)) && v.fields["destination"] == Object(TextMap(b.destination))
  {}

  // ---------- lists ----------

  predicate IsBindingList(rules: Rules, v: Json) {
    && v.List? && |v.items| <= MAX_BINDINGS
    && (forall i :: 0 <= i < |v.items| ==> IsBinding(rules, v.items[i]))
    && var bs := ParseEach(rules, v.items);
       forall i, j :: 0 <= i < j < |bs| ==> bs[i].sourceFile != bs[j].sourceFile && bs[i].targetFile != bs[j].targetFile
  }

  function ParseEach(rules: Rules, items: seq<Json>): (bs: seq<Binding>)
    requires forall i :: 0 <= i < |items| ==> IsBinding(rules, items[i])
    ensures |bs| == |items| && forall i :: 0 <= i < |items| ==> bs[i] == ParseBinding(rules, items[i])
  {
    seq(|items|, i requires 0 <= i < |items| => ParseBinding(rules, items[i]))
  }

  function SourceFiles(bs: seq<Binding>): (names: seq<string>)
    ensures |names| == |bs| && forall i :: 0 <= i < |bs| ==> names[i] == bs[i].sourceFile
  {
    seq(|bs|, i requires 0 <= i < |bs| => bs[i].sourceFile)
  }

  function ParseBindings(rules: Rules, v: Option<Json>, contentOnly: bool): Result<Option<seq<Binding>>> {
    if v.None? then Ok(None)
    else if !contentOnly || !IsBindingList(rules, v.value) then Err(InvalidDestination)
    else
      var bs := ParseEach(rules, v.value.items);
      Ok(Some(Arrange(ByKey(SourceFiles(bs), bs), SourceFiles(bs))))
  }

  function BindingsJson(bs: seq<Binding>): Json {
    List(seq(|bs|, i requires 0 <= i < |bs| => BindingJson(bs[i])))
  }

  /** Bindings put in the order of their source files are bindings of the list. */
  lemma ArrangedBindings(bs: seq<Binding>) returns (rs: seq<Binding>)
    ensures rs == Arrange(ByKey(SourceFiles(bs), bs), SourceFiles(bs))
    ensures Increasing(SourceFiles(rs)) && |rs| <= |bs| && forall i :: 0 <= i < |rs| ==> rs[i] in bs
  {
    var keys := SourceFiles(bs);
    rs := Arrange(ByKey(keys, bs), keys);
    SortedIsIncreasing(keys);
    SortedIsNoLonger(keys);
    hide Sorted, Increasing;
    forall i | 0 <= i < |rs|
      ensures rs[i] in bs && rs[i].sourceFile == Sorted(keys)[i]
    {
      assert Sorted(keys)[i] in Sorted(keys);
      var a := ByKeyIsAValue(keys, bs, Sorted(keys)[i]);
    }
    assert SourceFiles(rs) == Sorted(keys);
  }

  lemma BindingsAgain(rules: Rules, v: Json)
    requires IsBindingList(rules, v)
    ensures var parsed := ParseBindings(rules, Some(v), true);
            ParseBindings(rules, Some(BindingsJson(parsed.value.value)), true) == parsed
  {
    hide Arrange, ByKey, Increasing, SourceFiles, IsBinding, ParseBinding, BindingJson;
    var bs := ParseEach(rules, v.items);
    var rs := ArrangedBindings(bs);
    var again := BindingsJson(rs);
    forall i | 0 <= i < |rs|
      ensures IsBinding(rules, again.items[i]) && ParseBinding(rules, again.items[i]) == rs[i]
    {
      var k :| 0 <= k < |bs| && bs[k] == rs[i];
      BindingAgain(rules, v.items[k]);
    }
    assert ParseEach(rules, again.items) == rs;
    OneEach(bs, rs);
    ArrangeInOrder(SourceFiles(rs), rs);
  }

  lemma OneEach(bs: seq<Binding>, rs: seq<Binding>)
    requires forall i, j :: 0 <= i < j < |bs| ==> bs[i].sourceFile != bs[j].sourceFile && bs[i].targetFile != bs[j].targetFile
    requires Increasing(SourceFiles(rs)) && forall i :: 0 <= i < |rs| ==> rs[i] in bs
    ensures forall i, j :: 0 <= i < j < |rs| ==> rs[i].sourceFile != rs[j].sourceFile && rs[i].targetFile != rs[j].targetFile
  {}
}
