/**
 * The type collector (graphql_codegen/generator/type_collector.py): turns the
 * parsed schema model into the list of classes and aliases to render, and
 * decides which runtime mixins and imports the generated module needs.
 */
module TypeCollector {
  import opened Wrappers
  import opened Text
  import Parser
  import Config
  import opened Types
  import Utils

  /** Everything `collect_types` reads besides the type it is resolving. */
  datatype Context = Context(
    decode: string -> Option<Json>,
    schema: Parser.SchemaInfo,
    scalars: map<string, string>,
    forStdout: bool)

  function ContextOf(decode: string -> Option<Json>, schema: Parser.SchemaInfo, config: Config.CodegenConfig, forStdout: bool): Context
  {
    Context(decode, schema, config.scalars, forStdout)
  }

  // ---------------------------------------------------------------------
  // Generic sequence helpers
  // ---------------------------------------------------------------------

  /** The elements satisfying `p`, in order. */
  function Filter<T>(p: T -> bool, xs: seq<T>): seq<T>
  {
    if |xs| == 0 then []
    else Filter(p, xs[..|xs| - 1]) + (if p(xs[|xs| - 1]) then [xs[|xs| - 1]] else [])
  }

  lemma {:induction false} FilterAppend<T>(p: T -> bool, a: seq<T>, b: seq<T>)
    ensures Filter(p, a + b) == Filter(p, a) + Filter(p, b)
  {
    if |b| == 0 {
      assert a + b == a;
    } else {
      assert (a + b)[..|a + b| - 1] == a + b[..|b| - 1];
      FilterAppend(p, a, b[..|b| - 1]);
    }
  }

  /** What the filter keeps satisfies `p` and comes from the input. */
  lemma {:induction false} FilterKeeps<T>(p: T -> bool, xs: seq<T>)
    ensures forall k :: 0 <= k < |Filter(p, xs)| ==> p(Filter(p, xs)[k]) && Filter(p, xs)[k] in xs
  {
    if |xs| > 0 {
      var q := xs[..|xs| - 1];
      FilterKeeps(p, q);
      assert forall x :: x in q ==> x in xs;
    }
  }

  /** A loop over `xs` that threads a state and may raise. */
  function Fold<S, X>(step: (S, X) -> Result<S, Raised>, init: S, xs: seq<X>): Result<S, Raised>
  {
    if |xs| == 0 then Success(init)
    else
      match Fold(step, init, xs[..|xs| - 1])
      case Failure(e) => Failure(e)
      case Success(s) => step(s, xs[|xs| - 1])
  }

  /** One more element: the loop's next state is the step applied to the current one. */
  lemma FoldStep<S, X>(step: (S, X) -> Result<S, Raised>, init: S, xs: seq<X>, i: nat, s: S)
    requires i < |xs| && Fold(step, init, xs[..i]) == Success(s)
    ensures Fold(step, init, xs[..i + 1]) == step(s, xs[i])
  {
    assert xs[..i + 1][..i] == xs[..i];
  }

  /** Once the loop has raised, the remaining elements do not matter. */
  lemma {:induction false} FoldFailurePersists<S, X>(step: (S, X) -> Result<S, Raised>, init: S, xs: seq<X>, k: nat)
    requires k <= |xs| && Fold(step, init, xs[..k]).Failure?
    ensures Fold(step, init, xs) == Fold(step, init, xs[..k])
  {
    if k < |xs| {
      var q := xs[..|xs| - 1];
      assert q[..k] == xs[..k];
      FoldFailurePersists(step, init, q, k);
    } else {
      assert xs[..k] == xs;
    }
  }

  // ---------------------------------------------------------------------
  // Exclusion and mixins
  // ---------------------------------------------------------------------

  /** Root operation types and input types are not generated. */
  predicate IsExcluded(name: string)
  {
    name == "Query" || name == "Mutation" || name == "Subscription" || EndsWith(name, "Input")
  }

  predicate HasDirective(ds: seq<Parser.DirectiveInfo>, name: string)
  {
    exists i :: 0 <= i < |ds| && ds[i].name == name
  }

  predicate AnyFieldHas(fields: seq<Parser.FieldInfo>, name: string)
  {
    exists i :: 0 <= i < |fields| && HasDirective(fields[i].directives, name)
  }

  /** Needs the Computable mixin: judged over all of the type's own fields, inherited ones included. */
  predicate IsComputable(t: Parser.TypeInfo)
  {
    AnyFieldHas(t.fields, "compute") || AnyFieldHas(t.fields, "default") || HasDirective(t.directives, "static_method")
  }

  /** Needs the Expandable mixin. */
  predicate IsExpandable(t: Parser.TypeInfo)
  {
    HasDirective(t.directives, "expand") || AnyFieldHas(t.fields, "expand")
  }

  predicate HasMethodField(t: Parser.TypeInfo)
  {
    AnyFieldHas(t.fields, "method")
  }

  /** The class's direct supertypes: its interfaces, or BaseModel when there are none. */
  function RootBases(t: Parser.TypeInfo): seq<string>
  {
    if |t.interfaces| > 0 then t.interfaces else ["BaseModel"]
  }

  /** The mixins, Computable before Expandable. Object and interface types are treated alike. */
  function Mixins(t: Parser.TypeInfo): seq<string>
  {
    (if IsComputable(t) then ["Computable"] else []) + (if IsExpandable(t) then ["Expandable"] else [])
  }

  function BaseClasses(t: Parser.TypeInfo): seq<string>
  {
    RootBases(t) + Mixins(t)
  }

  /**
   * The base-class list starts with the interfaces in order (BaseModel when
   * there are none) and continues with the mixins, which name Computable
   * exactly when the type is computable and Expandable exactly when it is
   * expandable, in that order.
   */
  lemma BaseClassesLayout(t: Parser.TypeInfo)
    ensures var bases := BaseClasses(t); var n := |RootBases(t)|;
      && n <= |bases|
      && (|t.interfaces| > 0 ==> bases[..n] == t.interfaces)
      && (|t.interfaces| == 0 ==> bases[..n] == ["BaseModel"])
      && ("Computable" in bases[n..] <==> IsComputable(t))
      && ("Expandable" in bases[n..] <==> IsExpandable(t))
      && |bases[n..]| == (if IsComputable(t) then 1 else 0) + (if IsExpandable(t) then 1 else 0)
      && (forall x :: x in bases[n..] ==> x == "Computable" || x == "Expandable")
      && (IsComputable(t) && IsExpandable(t) ==> bases[n..] == ["Computable", "Expandable"])
  {
    var bases := BaseClasses(t);
    var n := |RootBases(t)|;
    assert bases[..n] == RootBases(t);
    assert bases[n..] == Mixins(t);
  }

  // ---------------------------------------------------------------------
  // Inherited field names
  // ---------------------------------------------------------------------

  /** `next((t for t in types if t.name == name), None)` */
  function FindType(types: seq<Parser.TypeInfo>, name: string): Option<Parser.TypeInfo>
  {
    if |types| == 0 then None
    else if types[0].name == name then Some(types[0])
    else FindType(types[1..], name)
  }

  /** FindType returns the first type of that name, and nothing exactly when there is none. */
  lemma {:induction false} FindTypeFirst(types: seq<Parser.TypeInfo>, name: string)
    ensures FindType(types, name).None? <==> forall i :: 0 <= i < |types| ==> types[i].name != name
    ensures FindType(types, name).Some? ==>
      exists i :: 0 <= i < |types| && types[i] == FindType(types, name).value && types[i].name == name
        && forall j :: 0 <= j < i ==> types[j].name != name
  {
    if |types| > 0 && types[0].name != name {
      FindTypeFirst(types[1..], name);
      if FindType(types, name).Some? {
        var i :| 0 <= i < |types[1..]| && types[1..][i] == FindType(types, name).value && types[1..][i].name == name
          && forall j :: 0 <= j < i ==> types[1..][j].name != name;
        assert types[i + 1] == types[1..][i];
        assert forall j :: 1 <= j < i + 1 ==> types[j] == types[1..][j - 1];
      }
    } else if |types| > 0 {
      assert types[0] == FindType(types, name).value;
    }
  }

  function FieldNames(fields: seq<Parser.FieldInfo>): set<string>
  {
    set i | 0 <= i < |fields| :: fields[i].name
  }

  /** The names of the fields declared on the listed interfaces that the schema defines. */
  function InheritedNames(types: seq<Parser.TypeInfo>, interfaces: seq<string>): set<string>
  {
    if |interfaces| == 0 then {}
    else
      InheritedNames(types, interfaces[..|interfaces| - 1])
      + match FindType(types, interfaces[|interfaces| - 1])
        case None => {}
        case Some(it) => FieldNames(it.fields)
  }

  /** A name is inherited exactly when one listed interface that the schema defines declares it. */
  lemma {:induction false} InheritedNamesExactly(types: seq<Parser.TypeInfo>, interfaces: seq<string>, x: string)
    ensures x in InheritedNames(types, interfaces) <==>
      exists k :: 0 <= k < |interfaces| && FindType(types, interfaces[k]).Some?
        && x in FieldNames(FindType(types, interfaces[k]).value.fields)
  {
    if |interfaces| > 0 {
      var q := interfaces[..|interfaces| - 1];
      InheritedNamesExactly(types, q, x);
      assert forall k :: 0 <= k < |q| ==> q[k] == interfaces[k];
    }
  }

  /** The interface loop of `collect_types`. */
  method InterfaceFieldNames(types: seq<Parser.TypeInfo>, interfaces: seq<string>) returns (names: set<string>)
    ensures names == InheritedNames(types, interfaces)
  {
    names := {};
    var i := 0;
    while i < |interfaces|
      invariant 0 <= i <= |interfaces|
      invariant names == InheritedNames(types, interfaces[..i])
    {
      assert interfaces[..i + 1][..i] == interfaces[..i];
      var found := FindType(types, interfaces[i]);
      if found.Some? {
        names := names + FieldNames(found.value.fields);
      }
      i := i + 1;
    }
    assert interfaces[..i] == interfaces;
  }

  // ---------------------------------------------------------------------
  // Forward references in stdout mode
  // ---------------------------------------------------------------------

  function Quote(name: string): string
  {
    "\"" + name + "\""
  }

  /** The field's type is another type of the schema (scalars and enums are not in that list). */
  predicate IsOtherSchemaType(types: seq<Parser.TypeInfo>, typeName: string, owner: string)
  {
    exists i :: 0 <= i < |types| && types[i].name == typeName && types[i].name != owner
  }

  /**
   * As written: every occurrence of the type name in the whole type string is
   * quoted. A string that starts with the name then starts with the quoted
   * name, and a string that does not mention the name is left alone.
   */
  function QuoteAsWritten(pythonType: string, typeName: string): (r: string)
    ensures typeName != "" && StartsWith(pythonType, typeName) ==> StartsWith(r, Quote(typeName))
    ensures typeName != "" && !Contains(pythonType, typeName) ==> r == pythonType
  {
    if typeName != "" && StartsWith(pythonType, typeName) then
      ReplaceAtStart(pythonType, typeName, Quote(typeName));
      ReplaceAll(pythonType, typeName, Quote(typeName))
    else if typeName != "" && !Contains(pythonType, typeName) then
      ReplaceAbsent(pythonType, typeName, Quote(typeName));
      ReplaceAll(pythonType, typeName, Quote(typeName))
    else
      ReplaceAll(pythonType, typeName, Quote(typeName))
  }

  /**
   * Corrected: the quoting is applied to the base type, and the wrappers are
   * added around it, so a field that is not required stays `Optional[...]`
   * and a required list stays `List[...]`.
   */
  function QuotedPythonType(typeName: string, isList: bool, isRequired: bool, scalars: map<string, string>): (r: string)
    ensures !isRequired ==> Utils.IsWrapped(r, "Optional")
    ensures isRequired && isList ==> Utils.IsWrapped(r, "List")
  {
    var quoted := ReplaceAll(Utils.BaseType(typeName, scalars), typeName, Quote(typeName));
    Utils.UnwrapWrap("List", quoted);
    Utils.UnwrapWrap("Optional", if isList then Utils.Wrap("List", quoted) else quoted);
    Utils.WrapType(quoted, isList, isRequired)
  }

  /** A quoted name is not of either wrapper shape: it starts with a quote. */
  lemma QuoteIsNotWrapped(name: string)
    ensures !Utils.IsWrapped(Quote(name), "List") && !Utils.IsWrapped(Quote(name), "Optional")
  {
    assert Quote(name)[0] == '"';
    assert ("List" + "[")[0] == 'L';
    assert ("Optional" + "[")[0] == 'O';
  }

  /**
   * With the corrected quoting an object-typed field keeps its wrappers: the
   * string reads back as the quoted name with the field's list and required flags.
   */
  lemma QuotedKeepsWrappers(typeName: string, isList: bool, isRequired: bool, scalars: map<string, string>)
    requires Utils.BaseType(typeName, scalars) == typeName
    ensures Utils.UnwrapPythonType(QuotedPythonType(typeName, isList, isRequired, scalars))
      == (Quote(typeName), isList, isRequired)
  {
    ReplaceWhole(typeName, Quote(typeName));
    QuoteIsNotWrapped(typeName);
    Utils.WrapTypeRoundTrip(Quote(typeName), isList, isRequired);
  }

  /** A text that starts with the pattern has its replacement in front. */
  lemma ReplaceAtStart(s: string, pat: string, rep: string)
    requires pat != "" && StartsWith(s, pat)
    ensures ReplaceAll(s, pat, rep) == rep + ReplaceAll(s[|pat|..], pat, rep)
  {
  }

  /** Quoting a name the text starts with puts a quote first, so no wrapper survives at the front. */
  lemma QuoteAtStartUnwraps(s: string, typeName: string)
    requires typeName != "" && StartsWith(s, typeName)
    ensures !Utils.IsWrapped(QuoteAsWritten(s, typeName), "Optional")
  {
    ReplaceAtStart(s, typeName, Quote(typeName));
    assert QuoteAsWritten(s, typeName)[0] == '"';
    assert ("Optional" + "[")[0] == 'O';
  }

  /** An optional type string starts with every prefix of "Optional". */
  lemma OptionalTypeStartsWith(typeName: string, isList: bool, scalars: map<string, string>)
    requires StartsWith("Optional", typeName)
    ensures StartsWith(Utils.GetPythonType(typeName, isList, false, scalars), typeName)
  {
    var base := Utils.BaseType(typeName, scalars);
    var listed := if isList then Utils.Wrap("List", base) else base;
    var s := Utils.GetPythonType(typeName, isList, false, scalars);
    assert s == "Optional" + ("[" + listed + "]");
    assert s[..|typeName|] == "Optional"[..|typeName|];
  }

  /**
   * As written, an optional field whose type is an object type named by a
   * prefix of "Optional" (`Option`, `Opt`, ...) loses its `Optional[...]`
   * wrapper: the replacement rewrites the wrapper's own letters, so the
   * string starts with a quote. The corrected quoting keeps the wrapper.
   */
  lemma QuoteAsWrittenBreaksOptional(typeName: string, isList: bool, scalars: map<string, string>)
    requires typeName != "" && StartsWith("Optional", typeName) && typeName !in scalars
    ensures !Utils.IsWrapped(QuoteAsWritten(Utils.GetPythonType(typeName, isList, false, scalars), typeName), "Optional")
    ensures Utils.IsWrapped(QuotedPythonType(typeName, isList, false, scalars), "Optional")
  {
    OptionalTypeStartsWith(typeName, isList, scalars);
    QuoteAtStartUnwraps(Utils.GetPythonType(typeName, isList, false, scalars), typeName);
    assert typeName[0] == "Optional"[..|typeName|][0] == 'O';
    assert Utils.BaseType(typeName, scalars) == typeName;
    ReplaceWhole(typeName, Quote(typeName));
    QuoteIsNotWrapped(typeName);
    Utils.OptionalIffNotRequired(Quote(typeName), isList, false);
  }

  /**
   * Replacing inside `w[...]` leaves the wrapper alone when the pattern does
   * not occur in `w[` and holds no bracket.
   */
  lemma WrapReplace(w: string, inner: string, pat: string, rep: string)
    requires pat != "" && '[' !in pat && ']' !in pat && !Contains(w + "[", pat)
    ensures ReplaceAll(Utils.Wrap(w, inner), pat, rep) == Utils.Wrap(w, ReplaceAll(inner, pat, rep))
  {
    var h := w + "[";
    assert Utils.Wrap(w, inner) == h + (inner + "]");
    assert h[|h| - 1] == '[';
    ReplaceSplit(h, inner + "]", pat, rep);
    ReplaceAbsent(h, pat, rep);
    ReplaceSplit(inner, "]", pat, rep);
    ReplaceOneChar(']', pat, rep);
  }

  /**
   * The as-written quoting agrees with the corrected one whenever the type
   * name is a GraphQL name (no brackets) that occurs neither in `Optional[`,
   * for a field that is not required, nor in `List[`, for a list field.
   */
  lemma QuoteAsWrittenAgrees(typeName: string, isList: bool, isRequired: bool, scalars: map<string, string>)
    requires typeName != "" && '[' !in typeName && ']' !in typeName
    requires !isRequired ==> !Contains("Optional[", typeName)
    requires isList ==> !Contains("List[", typeName)
    ensures QuoteAsWritten(Utils.GetPythonType(typeName, isList, isRequired, scalars), typeName)
      == QuotedPythonType(typeName, isList, isRequired, scalars)
  {
    var base := Utils.BaseType(typeName, scalars);
    var rep := Quote(typeName);
    var listed := if isList then Utils.Wrap("List", base) else base;
    if isList {
      assert "List" + "[" == "List[";
      WrapReplace("List", base, typeName, rep);
    }
    if !isRequired {
      assert "Optional" + "[" == "Optional[";
      WrapReplace("Optional", listed, typeName, rep);
    }
  }

  /** The smallest such input: a nullable field of an object type named `Option`. */
  lemma OptionTypeExample()
    ensures !Utils.IsWrapped(QuoteAsWritten(Utils.GetPythonType("Option", false, false, map[]), "Option"), "Optional")
    ensures QuotedPythonType("Option", false, false, map[]) == "Optional[" + Quote("Option") + "]"
  {
    assert "Optional"[..6] == "Option";
    QuoteAsWrittenBreaksOptional("Option", false, map[]);
    ReplaceWhole("Option", Quote("Option"));
  }

  // ---------------------------------------------------------------------
  // Fields and @method fields
  // ---------------------------------------------------------------------

  /** `next((d for d in field.directives if d.name == "method"), None)` */
  function FirstMethodDirective(ds: seq<Parser.DirectiveInfo>): (r: Option<Parser.DirectiveInfo>)
    ensures r.None? <==> !HasDirective(ds, "method")
    ensures r.Some? ==> r.value in ds && r.value.name == "method"
    ensures r.Some? ==>
      exists i :: 0 <= i < |ds| && ds[i] == r.value && forall j :: 0 <= j < i ==> ds[j].name != "method"
  {
    if |ds| == 0 then None
    else if ds[0].name == "method" then Some(ds[0])
    else
      var rest := FirstMethodDirective(ds[1..]);
      assert forall i :: 1 <= i < |ds| ==> ds[i] == ds[1..][i - 1];
      assert HasDirective(ds[1..], "method") ==> HasDirective(ds, "method");
      if rest.Some? then
        var i :| 0 <= i < |ds[1..]| && ds[1..][i] == rest.value && forall j :: 0 <= j < i ==> ds[1..][j].name != "method";
        assert ds[i + 1] == rest.value;
        assert forall j :: 0 <= j < i + 1 ==> ds[j].name != "method" by {
          forall j | 0 <= j < i + 1
            ensures ds[j].name != "method"
          {
            if j > 0 {
              assert ds[j] == ds[1..][j - 1];
            }
          }
        }
        rest
      else
        rest
  }

  /** A MethodInfo string field: absent stays None, a string is kept, a boolean fails validation. */
  function StrField(v: Option<Parser.ArgValue>): Result<Option<string>, Raised>
  {
    match v
    case None => Success(None)
    case Some(Str(s)) => Success(Some(s))
    case Some(Boolean(_)) => Failure(ValidationError)
  }

  /**
   * The method entry for a field carrying `@method`: named after the field,
   * its return type the field's type made optional, `expr` and `fn` copied
   * from the directive.
   */
  function MethodOf(f: Parser.FieldInfo, d: Parser.DirectiveInfo, scalars: map<string, string>): (r: Result<MethodInfo, Raised>)
    ensures r.Failure? <==>
      (Utils.Get(d.args, "expr").Some? && Utils.Get(d.args, "expr").value.Boolean?)
      || (Utils.Get(d.args, "fn").Some? && Utils.Get(d.args, "fn").value.Boolean?)
    ensures r.Success? ==>
      && r.value.name == f.name
      && r.value.returnType == Utils.GetPythonType(f.typeName, f.isList, false, scalars)
      && (r.value.expr.Some? <==> "expr" in d.args) && (r.value.expr.Some? ==> d.args["expr"] == Parser.Str(r.value.expr.value))
      && (r.value.fn.Some? <==> "fn" in d.args) && (r.value.fn.Some? ==> d.args["fn"] == Parser.Str(r.value.fn.value))
  {
    var expr := StrField(Utils.Get(d.args, "expr"));
    var fn := StrField(Utils.Get(d.args, "fn"));
    if expr.Failure? || fn.Failure? then Failure(ValidationError)
    else Success(MethodInfo(f.name, Utils.GetPythonType(f.typeName, f.isList, false, scalars), expr.value, fn.value))
  }

  /** A method's return type is always `Optional[...]`, whatever the field's nullability. */
  lemma MethodReturnIsOptional(f: Parser.FieldInfo, d: Parser.DirectiveInfo, scalars: map<string, string>)
    requires MethodOf(f, d, scalars).Success?
    ensures Utils.IsWrapped(MethodOf(f, d, scalars).value.returnType, "Optional")
  {
    var base := Utils.BaseType(f.typeName, scalars);
    Utils.UnwrapWrap("Optional", if f.isList then Utils.Wrap("List", base) else base);
  }

  /** The field entry: the metadata bag, and the type string quoted in stdout mode when it names another type. */
  function FieldOf(ctx: Context, owner: Parser.TypeInfo, f: Parser.FieldInfo): (r: Result<Types.FieldInfo, Raised>)
    ensures r.Failure? <==> Utils.FieldMetaOf(ctx.decode, f, ctx.scalars).Failure?
    ensures r.Success? ==> r.value.name == f.name
    ensures r.Success? ==> r.value.jsonSchemaExtra == Utils.FieldMetaOf(ctx.decode, f, ctx.scalars).value.jsonSchemaExtra
    ensures r.Success? ==>
      r.value.pythonType ==
        (if ctx.forStdout && IsOtherSchemaType(ctx.schema.types, f.typeName, owner.name)
         then QuotedPythonType(f.typeName, f.isList, f.isRequired, ctx.scalars)
         else Utils.GetPythonType(f.typeName, f.isList, f.isRequired, ctx.scalars))
  {
    match Utils.FieldMetaOf(ctx.decode, f, ctx.scalars)
    case Failure(e) => Failure(e)
    case Success(m) =>
      var pythonType :=
        if ctx.forStdout && IsOtherSchemaType(ctx.schema.types, f.typeName, owner.name)
        then QuotedPythonType(f.typeName, f.isList, f.isRequired, ctx.scalars)
        else m.pythonType;
      Success(Types.FieldInfo(f.name, pythonType, m.jsonSchemaExtra))
  }

  /** `@compute(fn: "calcCalories")` on a field reaches the emitted field's `json_schema_extra`. */
  lemma FieldOfComputeFn(ctx: Context, owner: Parser.TypeInfo, f: Parser.FieldInfo)
    requires f.directives == [Parser.DirectiveInfo("compute", map["fn" := Parser.Str("calcCalories")])]
    ensures FieldOf(ctx, owner, f).Success?
    ensures FieldOf(ctx, owner, f).value.jsonSchemaExtra
      == Some(FieldMeta(Some(ComputeFn(Some(Parser.Str("calcCalories")))), None, None))
  {
    Utils.ComputeFnExample(ctx.decode, f, ctx.scalars);
  }

  /** The two lists the field loop builds. */
  datatype Members = Members(fields: seq<Types.FieldInfo>, methods: seq<MethodInfo>)

  /** One iteration of the field loop. */
  function MemberStep(ctx: Context, owner: Parser.TypeInfo, inherited: set<string>, acc: Members, f: Parser.FieldInfo): Result<Members, Raised>
  {
    if f.name in inherited then Success(acc)
    else
      match FirstMethodDirective(f.directives)
      case Some(d) =>
        (match MethodOf(f, d, ctx.scalars)
         case Failure(e) => Failure(e)
         case Success(m) => Success(acc.(methods := acc.methods + [m])))
      case None =>
        (match FieldOf(ctx, owner, f)
         case Failure(e) => Failure(e)
         case Success(fi) => Success(acc.(fields := acc.fields + [fi])))
  }

  function MemberStepFn(ctx: Context, owner: Parser.TypeInfo, inherited: set<string>): (Members, Parser.FieldInfo) -> Result<Members, Raised>
  {
    (acc, f) => MemberStep(ctx, owner, inherited, acc, f)
  }

  function MembersOf(ctx: Context, owner: Parser.TypeInfo, inherited: set<string>): Result<Members, Raised>
  {
    Fold(MemberStepFn(ctx, owner, inherited), Members([], []), owner.fields)
  }

  /** A field emitted as a pydantic field: not inherited and without `@method`. */
  predicate IsDataField(inherited: set<string>, f: Parser.FieldInfo)
  {
    f.name !in inherited && FirstMethodDirective(f.directives).None?
  }

  /** A field emitted as a method: not inherited and carrying `@method`. */
  predicate IsMethodField(inherited: set<string>, f: Parser.FieldInfo)
  {
    f.name !in inherited && FirstMethodDirective(f.directives).Some?
  }

  function DataFields(inherited: set<string>, fs: seq<Parser.FieldInfo>): seq<Parser.FieldInfo>
  {
    Filter(f => IsDataField(inherited, f), fs)
  }

  function MethodFields(inherited: set<string>, fs: seq<Parser.FieldInfo>): seq<Parser.FieldInfo>
  {
    Filter(f => IsMethodField(inherited, f), fs)
  }

  /**
   * The field loop emits, in order, one field entry per non-inherited field
   * without `@method` and one method entry per non-inherited field with it;
   * inherited fields produce nothing.
   */
  lemma {:induction false} MembersPartition(ctx: Context, owner: Parser.TypeInfo, inherited: set<string>, fs: seq<Parser.FieldInfo>)
    requires Fold(MemberStepFn(ctx, owner, inherited), Members([], []), fs).Success?
    ensures var m := Fold(MemberStepFn(ctx, owner, inherited), Members([], []), fs).value;
      var data := DataFields(inherited, fs);
      var meth := MethodFields(inherited, fs);
      && |m.fields| == |data|
      && (forall k :: 0 <= k < |data| ==> FieldOf(ctx, owner, data[k]) == Success(m.fields[k]))
      && |m.methods| == |meth|
      && (forall k :: 0 <= k < |meth| ==>
            FirstMethodDirective(meth[k].directives).Some? &&
            MethodOf(meth[k], FirstMethodDirective(meth[k].directives).value, ctx.scalars) == Success(m.methods[k]))
  {
    if |fs| > 0 {
      var q := fs[..|fs| - 1];
      MembersPartition(ctx, owner, inherited, q);
      FilterKeeps(f => IsMethodField(inherited, f), fs);
    }
  }

  // ---------------------------------------------------------------------
  // @static_method and type-level @expand
  // ---------------------------------------------------------------------

  /** A `static_method` directive whose `name` and `expr` are both present and truthy. */
  predicate IsStaticEntry(d: Parser.DirectiveInfo)
  {
    && d.name == "static_method"
    && "name" in d.args && Utils.Truthy(d.args["name"])
    && "expr" in d.args && Utils.Truthy(d.args["expr"])
  }

  /** One iteration of the static-method loop; a boolean name or expr fails MethodInfo validation. */
  function StaticStep(acc: seq<MethodInfo>, d: Parser.DirectiveInfo): Result<seq<MethodInfo>, Raised>
  {
    if !IsStaticEntry(d) then Success(acc)
    else if d.args["name"].Str? && d.args["expr"].Str? then
      Success(acc + [MethodInfo(d.args["name"].s, "Any", Some(d.args["expr"].s), None)])
    else Failure(ValidationError)
  }

  function StaticMethodsOf(ds: seq<Parser.DirectiveInfo>): Result<seq<MethodInfo>, Raised>
  {
    Fold(StaticStep, [], ds)
  }

  /**
   * One static method per qualifying directive, in order, returning "Any"
   * and copying its name and expression; directives missing either are skipped.
   */
  lemma {:induction false} StaticMethodsExactly(ds: seq<Parser.DirectiveInfo>)
    requires StaticMethodsOf(ds).Success?
    ensures var r := StaticMethodsOf(ds).value; var es := Filter(IsStaticEntry, ds);
      && |r| == |es|
      && forall k :: 0 <= k < |es| ==>
           && IsStaticEntry(es[k]) && es[k].args["name"].Str? && es[k].args["expr"].Str?
           && r[k] == MethodInfo(es[k].args["name"].s, "Any", Some(es[k].args["expr"].s), None)
  {
    if |ds| > 0 {
      var q := ds[..|ds| - 1];
      StaticMethodsExactly(q);
      FilterKeeps(IsStaticEntry, ds);
    }
  }

  /** The static-method loop raises exactly when some qualifying directive has a boolean name or expr. */
  lemma {:induction false} StaticMethodsRaiseIff(ds: seq<Parser.DirectiveInfo>)
    ensures StaticMethodsOf(ds).Failure? <==>
      exists i :: 0 <= i < |ds| && IsStaticEntry(ds[i]) && !(ds[i].args["name"].Str? && ds[i].args["expr"].Str?)
  {
    if |ds| > 0 {
      var q := ds[..|ds| - 1];
      StaticMethodsRaiseIff(q);
      assert forall i :: 0 <= i < |q| ==> q[i] == ds[i];
    }
  }

  /** One iteration of the type-level expansion loop: each `expand` overwrites the previous value. */
  function ExpansionStep(decode: string -> Option<Json>, acc: Option<Json>, d: Parser.DirectiveInfo): Result<Option<Json>, Raised>
  {
    if d.name != "expand" then Success(acc)
    else
      match Utils.ParseInto(decode, Utils.IntoOf(d.args))
      case Failure(e) => Failure(e)
      case Success(j) => Success(Some(j))
  }

  function ExpansionStepFn(decode: string -> Option<Json>): (Option<Json>, Parser.DirectiveInfo) -> Result<Option<Json>, Raised>
  {
    (acc, d) => ExpansionStep(decode, acc, d)
  }

  function ExpansionOf(decode: string -> Option<Json>, ds: seq<Parser.DirectiveInfo>): Result<Option<Json>, Raised>
  {
    Fold(ExpansionStepFn(decode), None, ds)
  }

  /** The expansion spec is the decoded `into` of the last type-level `expand` directive. */
  lemma {:induction false} LastExpandIsSpec(decode: string -> Option<Json>, ds: seq<Parser.DirectiveInfo>, i: nat)
    requires ExpansionOf(decode, ds).Success?
    requires i < |ds| && ds[i].name == "expand"
    requires forall j :: i < j < |ds| ==> ds[j].name != "expand"
    ensures Utils.ParseInto(decode, Utils.IntoOf(ds[i].args)).Success?
    ensures ExpansionOf(decode, ds).value == Some(Utils.ParseInto(decode, Utils.IntoOf(ds[i].args)).value)
  {
    if i < |ds| - 1 {
      var q := ds[..|ds| - 1];
      assert forall j :: i < j < |q| ==> q[j] == ds[j];
      LastExpandIsSpec(decode, q, i);
    }
  }

  /** Without a type-level `expand` directive there is no expansion spec. */
  lemma {:induction false} NoExpandNoSpec(decode: string -> Option<Json>, ds: seq<Parser.DirectiveInfo>)
    requires !HasDirective(ds, "expand")
    ensures ExpansionOf(decode, ds) == Success(None)
  {
    if |ds| > 0 {
      var q := ds[..|ds| - 1];
      assert forall i :: 0 <= i < |q| ==> q[i] == ds[i];
      NoExpandNoSpec(decode, q);
    }
  }

  // ---------------------------------------------------------------------
  // Resolving one type
  // ---------------------------------------------------------------------

  /** A union becomes a type alias: no bases, no members, its members' names copied. */
  function UnionAlias(t: Parser.TypeInfo): Types.TypeInfo
  {
    Types.TypeInfo(t.name, [], [], [], [], None, Parser.Union, t.unionTypes, [])
  }

  /** One type of the schema in the IR: a union never fails, and the entry keeps the type's name and kind. */
  function Resolve(ctx: Context, t: Parser.TypeInfo): (r: Result<Types.TypeInfo, Raised>)
    ensures t.kind == Parser.Union ==> r.Success?
    ensures r.Success? ==> r.value.name == t.name && r.value.kind == t.kind
  {
    if t.kind == Parser.Union then Success(UnionAlias(t))
    else
      match MembersOf(ctx, t, InheritedNames(ctx.schema.types, t.interfaces))
      case Failure(e) => Failure(e)
      case Success(m) =>
        match StaticMethodsOf(t.directives)
        case Failure(e) => Failure(e)
        case Success(statics) =>
          match ExpansionOf(ctx.decode, t.directives)
          case Failure(e) => Failure(e)
          case Success(spec) =>
            Success(Types.TypeInfo(t.name, BaseClasses(t), m.fields, m.methods, statics, spec, t.kind, [], t.interfaces))
  }

  /** A union is emitted as an alias with empty bases, fields and methods and its member list unchanged. */
  lemma UnionIsAlias(ctx: Context, t: Parser.TypeInfo)
    requires t.kind == Parser.Union
    ensures Resolve(ctx, t).Success?
    ensures var r := Resolve(ctx, t).value;
      && r.name == t.name && r.kind == Parser.Union
      && r.baseClasses == [] && r.fields == [] && r.methods == [] && r.staticMethods == []
      && r.expansionSpec == None && r.unionTypes == t.unionTypes
  {
  }

  /**
   * An object or interface keeps its name, kind and interfaces, gets the
   * base-class list, and its fields and methods are exactly its
   * non-inherited fields, split by `@method`, in order.
   */
  lemma ObjectShape(ctx: Context, t: Parser.TypeInfo)
    requires t.kind != Parser.Union && Resolve(ctx, t).Success?
    ensures var r := Resolve(ctx, t).value; var inh := InheritedNames(ctx.schema.types, t.interfaces);
      var data := DataFields(inh, t.fields); var meth := MethodFields(inh, t.fields);
      && r.name == t.name && r.kind == t.kind && r.interfaces == t.interfaces && r.unionTypes == []
      && r.baseClasses == BaseClasses(t)
      && |r.fields| == |data|
      && (forall k :: 0 <= k < |data| ==> FieldOf(ctx, t, data[k]) == Success(r.fields[k]))
      && |r.methods| == |meth|
      && (forall k :: 0 <= k < |meth| ==>
            FirstMethodDirective(meth[k].directives).Some? &&
            MethodOf(meth[k], FirstMethodDirective(meth[k].directives).value, ctx.scalars) == Success(r.methods[k]))
      && StaticMethodsOf(t.directives) == Success(r.staticMethods)
      && ExpansionOf(ctx.decode, t.directives) == Success(r.expansionSpec)
  {
    MembersPartition(ctx, t, InheritedNames(ctx.schema.types, t.interfaces), t.fields);
  }

  /**
   * A field's `compute` directive makes the type Computable even when that
   * field is skipped as inherited: the mixins look at every own field.
   */
  lemma ComputeOnAnyFieldCounts(ctx: Context, t: Parser.TypeInfo, i: nat)
    requires t.kind != Parser.Union && Resolve(ctx, t).Success?
    requires i < |t.fields| && HasDirective(t.fields[i].directives, "compute")
    ensures "Computable" in Resolve(ctx, t).value.baseClasses
  {
    ObjectShape(ctx, t);
    BaseClassesLayout(t);
    var n := |RootBases(t)|;
    assert "Computable" in BaseClasses(t)[n..];
  }

  /** No emitted field or method carries a name declared on one of the type's interfaces. */
  lemma InheritedNeverEmitted(ctx: Context, t: Parser.TypeInfo)
    requires Resolve(ctx, t).Success?
    ensures var r := Resolve(ctx, t).value; var inh := InheritedNames(ctx.schema.types, t.interfaces);
      && (forall k :: 0 <= k < |r.fields| ==> r.fields[k].name !in inh)
      && (forall k :: 0 <= k < |r.methods| ==> r.methods[k].name !in inh)
  {
    if t.kind != Parser.Union {
      var inh := InheritedNames(ctx.schema.types, t.interfaces);
      ObjectShape(ctx, t);
      FilterKeeps(f => IsDataField(inh, f), t.fields);
      FilterKeeps(f => IsMethodField(inh, f), t.fields);
    }
  }

  // ---------------------------------------------------------------------
  // The collection loop and the import flags
  // ---------------------------------------------------------------------

  predicate IsEmitted(t: Parser.TypeInfo)
  {
    !IsExcluded(t.name)
  }

  /** An emitted non-union type that makes the module import the Computable machinery. */
  predicate WantsComputable(t: Parser.TypeInfo)
  {
    t.kind != Parser.Union && (IsComputable(t) || HasMethodField(t))
  }

  /** An emitted non-union type that makes the module import Expandable. */
  predicate WantsExpandable(t: Parser.TypeInfo)
  {
    t.kind != Parser.Union && IsExpandable(t)
  }

  datatype Collected = Collected(types: seq<Types.TypeInfo>, needsComputable: bool, needsExpandable: bool)

  /** One iteration of the loop over the schema's types. */
  function CollectStep(ctx: Context, acc: Collected, t: Parser.TypeInfo): Result<Collected, Raised>
  {
    if !IsEmitted(t) then Success(acc)
    else
      match Resolve(ctx, t)
      case Failure(e) => Failure(e)
      case Success(info) =>
        Success(Collected(acc.types + [info],
                          acc.needsComputable || WantsComputable(t),
                          acc.needsExpandable || WantsExpandable(t)))
  }

  function CollectStepFn(ctx: Context): (Collected, Parser.TypeInfo) -> Result<Collected, Raised>
  {
    (acc, t) => CollectStep(ctx, acc, t)
  }

  function CollectOf(ctx: Context, ts: seq<Parser.TypeInfo>): Result<Collected, Raised>
  {
    Fold(CollectStepFn(ctx), Collected([], false, false), ts)
  }

  /**
   * Excluded types produce nothing; every other type produces exactly one
   * entry, its resolution, in schema order.
   */
  lemma {:induction false} CollectEmitsInOrder(ctx: Context, ts: seq<Parser.TypeInfo>)
    requires CollectOf(ctx, ts).Success?
    ensures var c := CollectOf(ctx, ts).value; var kept := Filter(IsEmitted, ts);
      && |c.types| == |kept|
      && forall k :: 0 <= k < |kept| ==> Resolve(ctx, kept[k]) == Success(c.types[k])
  {
    if |ts| > 0 {
      CollectEmitsInOrder(ctx, ts[..|ts| - 1]);
    }
  }

  /** The collection raises exactly when resolving some emitted type raises. */
  lemma {:induction false} CollectRaisesIff(ctx: Context, ts: seq<Parser.TypeInfo>)
    ensures CollectOf(ctx, ts).Failure? <==>
      exists i :: 0 <= i < |ts| && IsEmitted(ts[i]) && Resolve(ctx, ts[i]).Failure?
  {
    if |ts| > 0 {
      var q := ts[..|ts| - 1];
      CollectRaisesIff(ctx, q);
      assert forall i :: 0 <= i < |q| ==> q[i] == ts[i];
    }
  }

  /**
   * The import flags range over the emitted non-union types:
   * `needs_computable_import` exactly when one is computable or has an
   * `@method` field, `needs_expandable_import` exactly when one is expandable.
   */
  lemma {:induction false} CollectFlags(ctx: Context, ts: seq<Parser.TypeInfo>)
    requires CollectOf(ctx, ts).Success?
    ensures var c := CollectOf(ctx, ts).value;
      && (c.needsComputable <==> exists i :: 0 <= i < |ts| && IsEmitted(ts[i]) && WantsComputable(ts[i]))
      && (c.needsExpandable <==> exists i :: 0 <= i < |ts| && IsEmitted(ts[i]) && WantsExpandable(ts[i]))
  {
    if |ts| > 0 {
      var q := ts[..|ts| - 1];
      CollectFlags(ctx, q);
      assert forall i :: 0 <= i < |q| ==> q[i] == ts[i];
    }
  }

  /** The import a scalar's Python type calls for: datetime takes precedence over typing. */
  function ImportFor(pythonType: string): set<string>
  {
    if Contains(pythonType, "datetime") then {"import datetime"}
    else if Contains(pythonType, "typing.") then {"import typing"}
    else {}
  }

  function ImportsOver(scalars: map<string, string>, keys: set<string>): set<string>
  {
    set k, imp | k in keys && k in scalars && imp in ImportFor(scalars[k]) :: imp
  }

  /** `imports_needed`, gathered over all the configured scalar mappings. */
  function ImportsNeeded(scalars: map<string, string>): set<string>
  {
    ImportsOver(scalars, scalars.Keys)
  }

  lemma ImportsOverAdd(scalars: map<string, string>, keys: set<string>, k: string)
    requires k in scalars
    ensures ImportsOver(scalars, keys + {k}) == ImportsOver(scalars, keys) + ImportFor(scalars[k])
  {
  }

  /**
   * `import datetime` is needed exactly when some mapping mentions
   * `datetime`; `import typing` exactly when some mapping mentions `typing.`
   * but not `datetime`; nothing else is ever needed.
   */
  lemma ImportsExactly(scalars: map<string, string>)
    ensures ImportsNeeded(scalars) <= {"import datetime", "import typing"}
    ensures "import datetime" in ImportsNeeded(scalars) <==>
      exists k :: k in scalars && Contains(scalars[k], "datetime")
    ensures "import typing" in ImportsNeeded(scalars) <==>
      exists k :: k in scalars && !Contains(scalars[k], "datetime") && Contains(scalars[k], "typing.")
  {
    if exists k :: k in scalars && Contains(scalars[k], "datetime") {
      var k :| k in scalars && Contains(scalars[k], "datetime");
      assert "import datetime" in ImportFor(scalars[k]);
    }
    if exists k :: k in scalars && !Contains(scalars[k], "datetime") && Contains(scalars[k], "typing.") {
      var k :| k in scalars && !Contains(scalars[k], "datetime") && Contains(scalars[k], "typing.");
      assert "import typing" in ImportFor(scalars[k]);
    }
  }

  /** What `collect_types` returns. */
  datatype CollectResult = CollectResult(
    types: seq<Types.TypeInfo>,
    needsComputableImport: bool,
    needsExpandableImport: bool,
    importsNeeded: set<string>)

  /**
   * `collect_types`: one IR entry per emitted schema type, and at most the
   * two module imports `datetime` and `typing`.
   */
  function Collection(decode: string -> Option<Json>, schema: Parser.SchemaInfo, config: Config.CodegenConfig, forStdout: bool): (r: Result<CollectResult, Raised>)
    ensures r.Success? ==> |r.value.types| == |Filter(IsEmitted, schema.types)|
    ensures r.Success? ==> r.value.importsNeeded <= {"import datetime", "import typing"}
  {
    var ctx := ContextOf(decode, schema, config, forStdout);
    ImportsExactly(config.scalars);
    match CollectOf(ctx, schema.types)
    case Failure(e) => Failure(e)
    case Success(c) =>
      CollectEmitsInOrder(ctx, schema.types);
      Success(CollectResult(c.types, c.needsComputable, c.needsExpandable, ImportsNeeded(config.scalars)))
  }

  // ---------------------------------------------------------------------
  // The loops of collect_types
  // ---------------------------------------------------------------------

  /** The loop over a type's fields, building `fields_data` and `methods_data`. */
  method SplitMembers(ctx: Context, owner: Parser.TypeInfo, inherited: set<string>) returns (r: Result<Members, Raised>)
    ensures r == MembersOf(ctx, owner, inherited)
  {
    var fs := owner.fields;
    ghost var step := MemberStepFn(ctx, owner, inherited);
    var fieldsData: seq<Types.FieldInfo> := [];
    var methodsData: seq<MethodInfo> := [];
    var i := 0;
    while i < |fs|
      invariant 0 <= i <= |fs|
      invariant Fold(step, Members([], []), fs[..i]) == Success(Members(fieldsData, methodsData))
    {
      var f := fs[i];
      FoldStep(step, Members([], []), fs, i, Members(fieldsData, methodsData));
      if f.name !in inherited {
        var methDir := FirstMethodDirective(f.directives);
        if methDir.Some? {
          var m := MethodOf(f, methDir.value, ctx.scalars);
          if m.Failure? {
            FoldFailurePersists(step, Members([], []), fs, i + 1);
            return Failure(m.error);
          }
          methodsData := methodsData + [m.value];
        } else {
          var meta := Utils.BuildFieldMeta(ctx.decode, f, ctx.scalars);
          if meta.Failure? {
            FoldFailurePersists(step, Members([], []), fs, i + 1);
            return Failure(meta.error);
          }
          var pythonType := meta.value.pythonType;
          if ctx.forStdout && IsOtherSchemaType(ctx.schema.types, f.typeName, owner.name) {
            pythonType := QuotedPythonType(f.typeName, f.isList, f.isRequired, ctx.scalars);
          }
          fieldsData := fieldsData + [Types.FieldInfo(f.name, pythonType, meta.value.jsonSchemaExtra)];
        }
      }
      i := i + 1;
    }
    assert fs[..i] == fs;
    r := Success(Members(fieldsData, methodsData));
  }

  /** The loop over a type's directives building `static_methods_data`. */
  method StaticMethods(ds: seq<Parser.DirectiveInfo>) returns (r: Result<seq<MethodInfo>, Raised>)
    ensures r == StaticMethodsOf(ds)
  {
    var data: seq<MethodInfo> := [];
    var i := 0;
    while i < |ds|
      invariant 0 <= i <= |ds|
      invariant StaticMethodsOf(ds[..i]) == Success(data)
    {
      var d := ds[i];
      assert ds[..i + 1][..i] == ds[..i];
      if d.name == "static_method" {
        var name := Utils.Get(d.args, "name");
        var expr := Utils.Get(d.args, "expr");
        if name.Some? && Utils.Truthy(name.value) && expr.Some? && Utils.Truthy(expr.value) {
          if !(name.value.Str? && expr.value.Str?) {
            FoldFailurePersists(StaticStep, [], ds, i + 1);
            return Failure(ValidationError);
          }
          data := data + [MethodInfo(name.value.s, "Any", Some(expr.value.s), None)];
        }
      }
      i := i + 1;
    }
    assert ds[..i] == ds;
    r := Success(data);
  }

  /** The loop over a type's directives that overwrites `expansion_spec` at each `expand`. */
  method ExpansionSpec(decode: string -> Option<Json>, ds: seq<Parser.DirectiveInfo>) returns (r: Result<Option<Json>, Raised>)
    ensures r == ExpansionOf(decode, ds)
  {
    ghost var step := ExpansionStepFn(decode);
    var spec: Option<Json> := None;
    var i := 0;
    while i < |ds|
      invariant 0 <= i <= |ds|
      invariant Fold(step, None, ds[..i]) == Success(spec)
    {
      var d := ds[i];
      FoldStep(step, None, ds, i, spec);
      if d.name == "expand" {
        var parsed := Utils.ParseInto(decode, Utils.IntoOf(d.args));
        if parsed.Failure? {
          FoldFailurePersists(step, None, ds, i + 1);
          return Failure(parsed.error);
        }
        spec := Some(parsed.value);
      }
      i := i + 1;
    }
    assert ds[..i] == ds;
    r := Success(spec);
  }

  /** The loop body of `collect_types` for one emitted type. */
  method ResolveType(ctx: Context, t: Parser.TypeInfo) returns (r: Result<Types.TypeInfo, Raised>)
    ensures r == Resolve(ctx, t)
  {
    if t.kind == Parser.Union {
      return Success(Types.TypeInfo(t.name, [], [], [], [], None, Parser.Union, t.unionTypes, []));
    }
    var inherited := InterfaceFieldNames(ctx.schema.types, t.interfaces);
    var members := SplitMembers(ctx, t, inherited);
    if members.Failure? {
      return Failure(members.error);
    }
    var statics := StaticMethods(t.directives);
    if statics.Failure? {
      return Failure(statics.error);
    }
    var spec := ExpansionSpec(ctx.decode, t.directives);
    if spec.Failure? {
      return Failure(spec.error);
    }
    r := Success(Types.TypeInfo(t.name, BaseClasses(t), members.value.fields, members.value.methods,
                                statics.value, spec.value, t.kind, [], t.interfaces));
  }

  /** The loop over the scalar mappings that fills `imports_needed`. */
  method ScalarImports(scalars: map<string, string>) returns (imports: set<string>)
    ensures imports == ImportsNeeded(scalars)
  {
    imports := {};
    var remaining := scalars.Keys;
    while remaining != {}
      invariant remaining <= scalars.Keys
      invariant imports == ImportsOver(scalars, scalars.Keys - remaining)
      decreases |remaining|
    {
      var k :| k in remaining;
      ImportsOverAdd(scalars, scalars.Keys - remaining, k);
      assert (scalars.Keys - remaining) + {k} == scalars.Keys - (remaining - {k});
      var pythonType := scalars[k];
      if Contains(pythonType, "datetime") {
        imports := imports + {"import datetime"};
      } else if Contains(pythonType, "typing.") {
        imports := imports + {"import typing"};
      }
      remaining := remaining - {k};
    }
    assert scalars.Keys - remaining == scalars.Keys;
  }

  /** `collect_types` */
  method CollectTypes(decode: string -> Option<Json>, schema: Parser.SchemaInfo, config: Config.CodegenConfig, forStdout: bool)
    returns (r: Result<CollectResult, Raised>)
    ensures r == Collection(decode, schema, config, forStdout)
  {
    var ctx := ContextOf(decode, schema, config, forStdout);
    ghost var step := CollectStepFn(ctx);
    var imports := ScalarImports(config.scalars);
    var typesData: seq<Types.TypeInfo> := [];
    var needsComputable := false;
    var needsExpandable := false;
    var ts := schema.types;
    var i := 0;
    while i < |ts|
      invariant 0 <= i <= |ts|
      invariant Fold(step, Collected([], false, false), ts[..i]) == Success(Collected(typesData, needsComputable, needsExpandable))
    {
      var t := ts[i];
      FoldStep(step, Collected([], false, false), ts, i, Collected(typesData, needsComputable, needsExpandable));
      if !IsExcluded(t.name) {
        var info := ResolveType(ctx, t);
        if info.Failure? {
          FoldFailurePersists(step, Collected([], false, false), ts, i + 1);
          return Failure(info.error);
        }
        if t.kind != Parser.Union {
          if IsComputable(t) || HasMethodField(t) {
            needsComputable := true;
          }
          if IsExpandable(t) {
            needsExpandable := true;
          }
        }
        typesData := typesData + [info.value];
      }
      i := i + 1;
    }
    assert ts[..i] == ts;
    r := Success(CollectResult(typesData, needsComputable, needsExpandable, imports));
  }
}
