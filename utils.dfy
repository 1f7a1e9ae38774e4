/**
 * The generator's helpers (graphql_codegen/generator/utils.py): removing
 * `#` comment lines from rendered output, decoding an `into` argument, the
 * GraphQL-to-Python type-string mapping and the per-field metadata bag.
 */
module Utils {
  import opened Wrappers
  import opened Text
  import Parser
  import opened Types

  // ---------------------------------------------------------------------
  // strip_hash_comments
  // ---------------------------------------------------------------------

  /** A line whose text, leading and trailing whitespace removed, begins with `#`. */
  predicate IsCommentLine(line: string)
  {
    StartsWith(Strip(line), "#")
  }

  /** The lines that are not comment lines, in their original order. */
  function KeptLines(lines: seq<string>): seq<string>
  {
    if |lines| == 0 then []
    else (if IsCommentLine(lines[0]) then [] else [lines[0]]) + KeptLines(lines[1..])
  }

  /** `strip_hash_comments`: no line of the result is a comment line. */
  function StripHashComments(text: string): (r: string)
    ensures var out := Split(r, '\n'); forall k :: 0 <= k < |out| ==> !IsCommentLine(out[k])
  {
    var lines := Split(text, '\n');
    var kept := KeptLines(lines);
    KeptLinesAreNotComments(lines);
    if |kept| > 0 then
      SplitPiecesHaveNoSep(text, '\n');
      SplitJoin(kept, '\n');
      Join(kept, '\n')
    else
      assert Strip("") == "" && !IsCommentLine("");
      Join(kept, '\n')
  }

  lemma {:induction false} KeptLinesAppend(a: seq<string>, b: seq<string>)
    ensures KeptLines(a + b) == KeptLines(a) + KeptLines(b)
  {
    if |a| == 0 {
      assert a + b == b;
    } else {
      assert (a + b)[1..] == a[1..] + b;
      KeptLinesAppend(a[1..], b);
    }
  }

  /** Every kept line is one of the input's lines and is not a comment. */
  lemma {:induction false} KeptLinesAreNotComments(lines: seq<string>)
    ensures forall k :: 0 <= k < |KeptLines(lines)| ==>
      KeptLines(lines)[k] in lines && !IsCommentLine(KeptLines(lines)[k])
  {
    if |lines| > 0 {
      KeptLinesAreNotComments(lines[1..]);
      forall k | 0 <= k < |KeptLines(lines)|
        ensures KeptLines(lines)[k] in lines && !IsCommentLine(KeptLines(lines)[k])
      {
        if !IsCommentLine(lines[0]) && k > 0 {
          assert KeptLines(lines)[k] == KeptLines(lines[1..])[k - 1];
        } else if IsCommentLine(lines[0]) {
          assert KeptLines(lines)[k] == KeptLines(lines[1..])[k];
        }
      }
    }
  }

  /** Lines without comments are all kept. */
  lemma {:induction false} KeptLinesWithoutComments(lines: seq<string>)
    requires forall k :: 0 <= k < |lines| ==> !IsCommentLine(lines[k])
    ensures KeptLines(lines) == lines
  {
    if |lines| > 0 {
      KeptLinesWithoutComments(lines[1..]);
      assert [lines[0]] + lines[1..] == lines;
    }
  }

  /**
   * The output's lines are the input's non-comment lines, in order; when
   * every line is a comment the output is empty.
   */
  lemma StripKeepsExactlyNonComments(text: string)
    ensures var kept := KeptLines(Split(text, '\n'));
      && (|kept| > 0 ==> Split(StripHashComments(text), '\n') == kept)
      && (|kept| == 0 ==> StripHashComments(text) == "")
  {
    var lines := Split(text, '\n');
    var kept := KeptLines(lines);
    if |kept| > 0 {
      SplitPiecesHaveNoSep(text, '\n');
      KeptLinesAreNotComments(lines);
      SplitJoin(kept, '\n');
    }
  }

  /** Removing comment lines a second time changes nothing. */
  lemma StripIsIdempotent(text: string)
    ensures StripHashComments(StripHashComments(text)) == StripHashComments(text)
  {
    var kept := KeptLines(Split(text, '\n'));
    StripKeepsExactlyNonComments(text);
    if |kept| > 0 {
      KeptLinesAreNotComments(Split(text, '\n'));
      KeptLinesWithoutComments(kept);
    } else {
      assert Strip("") == "" && !IsCommentLine("");
      assert KeptLines([""]) == [""];
    }
  }

  // ---------------------------------------------------------------------
  // parse_into
  // ---------------------------------------------------------------------

  /**
   * `parse_into(value)`: the JSON decoding of a string argument, or `{}` when
   * it does not decode. `json.loads` is the parameter `decode`. A boolean
   * argument makes `json.loads` raise a TypeError, which is not caught.
   */
  function ParseInto(decode: string -> Option<Json>, v: Parser.ArgValue): (r: Result<Json, Raised>)
    ensures r.Failure? <==> v.Boolean?
    ensures r.Failure? ==> r.error == JsonTypeError
    ensures v.Str? && decode(v.s).Some? ==> r == Success(decode(v.s).value)
    ensures v.Str? && decode(v.s).None? ==> r == Success(JObj([]))
  {
    match v
    case Boolean(_) => Failure(JsonTypeError)
    case Str(s) => if decode(s).Some? then Success(decode(s).value) else Success(JObj([]))
  }

  /** The whitespace JSON allows before a value. */
  predicate IsJsonSpace(c: char)
  {
    c == ' ' || c == '\t' || c == '\n' || c == '\r'
  }

  function SkipJsonSpace(s: string): string
  {
    if |s| > 0 && IsJsonSpace(s[0]) then SkipJsonSpace(s[1..]) else s
  }

  /** The characters a JSON value can begin with, counting Python's NaN and Infinity. */
  predicate CanStartJson(c: char)
  {
    c == '{' || c == '[' || c == '"' || c == '-' || ('0' <= c <= '9')
    || c == 't' || c == 'f' || c == 'n' || c == 'N' || c == 'I'
  }

  /** A decoder that accepts nothing whose first token cannot start a JSON value. */
  ghost predicate RejectsNonJson(decode: string -> Option<Json>)
  {
    forall s :: decode(s).Some? ==> |SkipJsonSpace(s)| > 0 && CanStartJson(SkipJsonSpace(s)[0])
  }

  /** A bare function name such as `calcCalories` becomes `{}`, not the raw string. */
  lemma BareNameGivesEmptyObject(decode: string -> Option<Json>, name: string)
    requires RejectsNonJson(decode)
    requires |name| > 0 && !IsJsonSpace(name[0]) && !CanStartJson(name[0])
    ensures ParseInto(decode, Parser.Str(name)) == Success(JObj([]))
  {
    assert SkipJsonSpace(name) == name;
    assert !(|SkipJsonSpace(name)| > 0 && CanStartJson(SkipJsonSpace(name)[0]));
  }

  // ---------------------------------------------------------------------
  // get_python_type
  // ---------------------------------------------------------------------

  /** The Python type for a GraphQL type name: a configured scalar mapping first, then the built-ins. */
  function BaseType(typeName: string, scalars: map<string, string>): string
  {
    if typeName in scalars then scalars[typeName]
    else if typeName == "String" || typeName == "ID" then "str"
    else if typeName == "Int" then "int"
    else if typeName == "Float" then "float"
    else if typeName == "Boolean" then "bool"
    else typeName
  }

  /** `w[inner]` */
  function Wrap(w: string, inner: string): string
  {
    w + "[" + inner + "]"
  }

  /** `List[...]` first when a list, then `Optional[...]` when not required. */
  function WrapType(base: string, isList: bool, isRequired: bool): string
  {
    var listed := if isList then Wrap("List", base) else base;
    if isRequired then listed else Wrap("Optional", listed)
  }

  /**
   * `get_python_type`: a type that is not required is `Optional[...]` around
   * the required type; a required list is `List[...]` around the base type.
   */
  function GetPythonType(typeName: string, isList: bool, isRequired: bool, scalars: map<string, string>): (r: string)
    ensures !isRequired ==>
      IsWrapped(r, "Optional") && Unwrap(r, "Optional") == WrapType(BaseType(typeName, scalars), isList, true)
    ensures isRequired && isList ==> IsWrapped(r, "List") && Unwrap(r, "List") == BaseType(typeName, scalars)
    ensures isRequired && !isList ==> r == BaseType(typeName, scalars)
  {
    var base := BaseType(typeName, scalars);
    UnwrapWrap("List", base);
    UnwrapWrap("Optional", if isList then Wrap("List", base) else base);
    WrapType(base, isList, isRequired)
  }

  /** Whether `s` has the shape `w[...]`. */
  predicate IsWrapped(s: string, w: string)
  {
    |s| >= |w| + 2 && StartsWith(s, w + "[") && EndsWith(s, "]")
  }

  function Unwrap(s: string, w: string): string
    requires IsWrapped(s, w)
  {
    s[|w| + 1..|s| - 1]
  }

  /** Reads a Python type string back into its base type and its list and required flags. */
  function UnwrapPythonType(s: string): (string, bool, bool)
  {
    var isRequired := !IsWrapped(s, "Optional");
    var inner := if isRequired then s else Unwrap(s, "Optional");
    var isList := IsWrapped(inner, "List");
    (if isList then Unwrap(inner, "List") else inner, isList, isRequired)
  }

  lemma UnwrapWrap(w: string, inner: string)
    ensures IsWrapped(Wrap(w, inner), w)
    ensures Unwrap(Wrap(w, inner), w) == inner
  {
    var s := Wrap(w, inner);
    assert s == (w + "[") + inner + "]";
    assert s[..|w| + 1] == w + "[";
    assert s[|s| - 1..] == "]";
    assert s[|w| + 1..|s| - 1] == inner;
  }

  /** A `List[...]` string never looks like `Optional[...]`: they differ in the first character. */
  lemma ListIsNotOptional(inner: string)
    ensures !IsWrapped(Wrap("List", inner), "Optional")
  {
    assert Wrap("List", inner)[0] == 'L';
    assert ("Optional" + "[")[0] == 'O';
  }

  /** Which base type is chosen: a configured mapping wins over the built-in defaults. */
  lemma BaseTypeChoice(typeName: string, scalars: map<string, string>)
    ensures typeName in scalars ==> BaseType(typeName, scalars) == scalars[typeName]
    ensures typeName !in scalars ==>
      && ((typeName == "String" || typeName == "ID") ==> BaseType(typeName, scalars) == "str")
      && (typeName == "Int" ==> BaseType(typeName, scalars) == "int")
      && (typeName == "Float" ==> BaseType(typeName, scalars) == "float")
      && (typeName == "Boolean" ==> BaseType(typeName, scalars) == "bool")
      && (typeName !in {"String", "ID", "Int", "Float", "Boolean"} ==> BaseType(typeName, scalars) == typeName)
  {
  }

  /**
   * The wrapped string can be read back: `List[...]` sits inside
   * `Optional[...]`, `Optional` is there exactly when not required and `List`
   * exactly when a list, provided the base is not itself of either shape.
   */
  lemma WrapTypeRoundTrip(base: string, isList: bool, isRequired: bool)
    requires !IsWrapped(base, "List") && !IsWrapped(base, "Optional")
    ensures UnwrapPythonType(WrapType(base, isList, isRequired)) == (base, isList, isRequired)
  {
    var listed := if isList then Wrap("List", base) else base;
    if isList {
      UnwrapWrap("List", base);
      ListIsNotOptional(base);
    }
    if !isRequired {
      UnwrapWrap("Optional", listed);
    }
  }

  /** The type string of a field reads back as its mapped base type and its two flags. */
  lemma PythonTypeRoundTrip(typeName: string, isList: bool, isRequired: bool, scalars: map<string, string>)
    requires !IsWrapped(BaseType(typeName, scalars), "List")
    requires !IsWrapped(BaseType(typeName, scalars), "Optional")
    ensures UnwrapPythonType(GetPythonType(typeName, isList, isRequired, scalars))
      == (BaseType(typeName, scalars), isList, isRequired)
  {
    WrapTypeRoundTrip(BaseType(typeName, scalars), isList, isRequired);
  }

  /** A required type never gets `Optional`, any other always does (for a base not already `Optional[...]`). */
  lemma OptionalIffNotRequired(base: string, isList: bool, isRequired: bool)
    requires !IsWrapped(base, "Optional")
    ensures IsWrapped(WrapType(base, isList, isRequired), "Optional") <==> !isRequired
  {
    if isList {
      ListIsNotOptional(base);
    }
    if !isRequired {
      UnwrapWrap("Optional", if isList then Wrap("List", base) else base);
    }
  }

  /** A list that is not required gets `Optional[List[T]]`: the list wrapper goes on first. */
  lemma OptionalListOrder(typeName: string, scalars: map<string, string>)
    ensures GetPythonType(typeName, true, false, scalars)
      == "Optional[List[" + BaseType(typeName, scalars) + "]]"
  {
  }

  // ---------------------------------------------------------------------
  // build_field_meta
  // ---------------------------------------------------------------------

  /** `args.get(key)` */
  function Get(args: map<string, Parser.ArgValue>, key: string): Option<Parser.ArgValue>
  {
    if key in args then Some(args[key]) else None
  }

  /** Python truthiness of an argument value. */
  predicate Truthy(v: Parser.ArgValue)
  {
    match v
    case Str(s) => s != ""
    case Boolean(b) => b
  }

  /** The `compute` entry: `{"expr": ...}` when the key is present, else `{"fn": args.get("fn")}`. */
  function ComputeOf(args: map<string, Parser.ArgValue>): ComputeMeta
  {
    if "expr" in args then ComputeExpr(args["expr"]) else ComputeFn(Get(args, "fn"))
  }

  /** `args.get("into", "{}")` */
  function IntoOf(args: map<string, Parser.ArgValue>): Parser.ArgValue
  {
    if "into" in args then args["into"] else Parser.Str("{}")
  }

  /** A `default` directive with a truthy `expr`: the only kind that adds a default entry. */
  predicate SetsDefault(d: Parser.DirectiveInfo)
  {
    d.name == "default" && "expr" in d.args && Truthy(d.args["expr"])
  }

  /** An `expand` directive whose `into` is a boolean: decoding it raises. */
  predicate RaisesOn(d: Parser.DirectiveInfo)
  {
    d.name == "expand" && IntoOf(d.args).Boolean?
  }

  /** The `meta` dict and the two flags as the loop over a field's directives leaves them. */
  datatype MetaState = MetaState(meta: FieldMeta, needsCompute: bool, needsExpand: bool)

  const InitialMeta: MetaState := MetaState(NoMeta, false, false)

  /** One iteration of the directive loop. */
  function MetaStep(decode: string -> Option<Json>, st: MetaState, d: Parser.DirectiveInfo): Result<MetaState, Raised>
  {
    if d.name == "compute" then
      Success(st.(meta := st.meta.(compute := Some(ComputeOf(d.args))), needsCompute := true))
    else if d.name == "expand" then
      match ParseInto(decode, IntoOf(d.args))
      case Failure(e) => Failure(e)
      case Success(j) => Success(st.(meta := st.meta.(expand := Some(j)), needsExpand := true))
    else if SetsDefault(d) then
      Success(st.(meta := st.meta.(default := Some(d.args["expr"]))))
    else
      Success(st)
  }

  /** The loop's state after the given directives, or the exception it raised. */
  function MetaOf(decode: string -> Option<Json>, ds: seq<Parser.DirectiveInfo>): Result<MetaState, Raised>
  {
    if |ds| == 0 then Success(InitialMeta)
    else
      match MetaOf(decode, ds[..|ds| - 1])
      case Failure(e) => Failure(e)
      case Success(st) => MetaStep(decode, st, ds[|ds| - 1])
  }

  /** What `build_field_meta` returns: the type string, `json_schema_extra` and the two flags. */
  datatype FieldMetaOut = FieldMetaOut(
    pythonType: string, jsonSchemaExtra: Option<FieldMeta>, needsCompute: bool, needsExpand: bool)

  /**
   * `build_field_meta`: it raises exactly when some `expand` has a boolean
   * `into`; otherwise the type string is the field's Python type and each
   * flag is set exactly when a directive of its kind is present.
   */
  function FieldMetaOf(decode: string -> Option<Json>, field: Parser.FieldInfo, scalars: map<string, string>): (r: Result<FieldMetaOut, Raised>)
    ensures var ds := field.directives;
      r.Failure? <==> exists i :: 0 <= i < |ds| && RaisesOn(ds[i])
    ensures r.Success? ==> r.value.pythonType == GetPythonType(field.typeName, field.isList, field.isRequired, scalars)
    ensures var ds := field.directives;
      r.Success? ==> (r.value.needsCompute <==> exists i :: 0 <= i < |ds| && ds[i].name == "compute")
    ensures var ds := field.directives;
      r.Success? ==> (r.value.needsExpand <==> exists i :: 0 <= i < |ds| && ds[i].name == "expand")
  {
    MetaRaisesIff(decode, field.directives);
    match MetaOf(decode, field.directives)
    case Failure(e) => Failure(e)
    case Success(st) =>
      MetaEntriesPresent(decode, field.directives);
      Success(FieldMetaOut(
        GetPythonType(field.typeName, field.isList, field.isRequired, scalars),
        if st.meta == NoMeta then None else Some(st.meta),
        st.needsCompute, st.needsExpand))
  }

  /** Once the loop has raised, the later directives do not matter. */
  lemma {:induction false} MetaFailurePersists(decode: string -> Option<Json>, ds: seq<Parser.DirectiveInfo>, k: nat)
    requires k <= |ds| && MetaOf(decode, ds[..k]).Failure?
    ensures MetaOf(decode, ds) == MetaOf(decode, ds[..k])
  {
    if k < |ds| {
      var p := ds[..|ds| - 1];
      assert p[..k] == ds[..k];
      MetaFailurePersists(decode, p, k);
    } else {
      assert ds[..k] == ds;
    }
  }

  /** The metadata build raises exactly when some `expand` directive has a boolean `into`. */
  lemma {:induction false} MetaRaisesIff(decode: string -> Option<Json>, ds: seq<Parser.DirectiveInfo>)
    ensures MetaOf(decode, ds).Failure? <==> exists i :: 0 <= i < |ds| && RaisesOn(ds[i])
    ensures MetaOf(decode, ds).Failure? ==> MetaOf(decode, ds).error == JsonTypeError
  {
    if |ds| > 0 {
      var p := ds[..|ds| - 1];
      MetaRaisesIff(decode, p);
      assert forall i :: 0 <= i < |p| ==> p[i] == ds[i];
      if exists i :: 0 <= i < |ds| && RaisesOn(ds[i]) {
        var i :| 0 <= i < |ds| && RaisesOn(ds[i]);
        if i < |p| {
          assert RaisesOn(p[i]);
        }
      }
    }
  }

  /**
   * Which entries the bag holds: `compute` (and `needs_compute`) exactly when
   * some directive is `compute`, `expand` (and `needs_expand`) exactly when
   * some directive is `expand`, `default` exactly when some `default` has a
   * truthy `expr`. In particular `default` never sets `needs_compute`.
   */
  lemma {:induction false} MetaEntriesPresent(decode: string -> Option<Json>, ds: seq<Parser.DirectiveInfo>)
    requires MetaOf(decode, ds).Success?
    ensures var st := MetaOf(decode, ds).value;
      && (st.needsCompute <==> exists i :: 0 <= i < |ds| && ds[i].name == "compute")
      && (st.meta.compute.Some? <==> st.needsCompute)
      && (st.needsExpand <==> exists i :: 0 <= i < |ds| && ds[i].name == "expand")
      && (st.meta.expand.Some? <==> st.needsExpand)
      && (st.meta.default.Some? <==> exists i :: 0 <= i < |ds| && SetsDefault(ds[i]))
  {
    if |ds| > 0 {
      var p, d := ds[..|ds| - 1], ds[|ds| - 1];
      MetaEntriesPresent(decode, p);
      MetaStepEntries(decode, MetaOf(decode, p).value, d);
      NamedSplit(ds, p, "compute");
      NamedSplit(ds, p, "expand");
      DefaultSplit(ds, p);
    }
  }

  /** What one step of the directive loop adds to the entries and flags. */
  lemma MetaStepEntries(decode: string -> Option<Json>, st: MetaState, d: Parser.DirectiveInfo)
    requires MetaStep(decode, st, d).Success?
    ensures var st' := MetaStep(decode, st, d).value;
      && (st'.needsCompute <==> st.needsCompute || d.name == "compute")
      && (st'.meta.compute.Some? <==> st.meta.compute.Some? || d.name == "compute")
      && (st'.needsExpand <==> st.needsExpand || d.name == "expand")
      && (st'.meta.expand.Some? <==> st.meta.expand.Some? || d.name == "expand")
      && (st'.meta.default.Some? <==> st.meta.default.Some? || SetsDefault(d))
  {
  }

  lemma NamedSplit(ds: seq<Parser.DirectiveInfo>, p: seq<Parser.DirectiveInfo>, n: string)
    requires |ds| > 0 && p == ds[..|ds| - 1]
    ensures (exists i :: 0 <= i < |ds| && ds[i].name == n)
        <==> (exists i :: 0 <= i < |p| && p[i].name == n) || ds[|ds| - 1].name == n
  {
    assert forall i :: 0 <= i < |p| ==> p[i] == ds[i];
  }

  lemma DefaultSplit(ds: seq<Parser.DirectiveInfo>, p: seq<Parser.DirectiveInfo>)
    requires |ds| > 0 && p == ds[..|ds| - 1]
    ensures (exists i :: 0 <= i < |ds| && SetsDefault(ds[i]))
        <==> (exists i :: 0 <= i < |p| && SetsDefault(p[i])) || SetsDefault(ds[|ds| - 1])
  {
    assert forall i :: 0 <= i < |p| ==> p[i] == ds[i];
  }

  /** The last `compute` directive decides the `compute` entry. */
  lemma {:induction false} LastComputeWins(decode: string -> Option<Json>, ds: seq<Parser.DirectiveInfo>, i: nat)
    requires MetaOf(decode, ds).Success?
    requires i < |ds| && ds[i].name == "compute"
    requires forall j :: i < j < |ds| ==> ds[j].name != "compute"
    ensures MetaOf(decode, ds).value.meta.compute == Some(ComputeOf(ds[i].args))
  {
    if i < |ds| - 1 {
      var p := ds[..|ds| - 1];
      assert forall j :: i < j < |p| ==> p[j] == ds[j];
      LastComputeWins(decode, p, i);
    }
  }

  /** The last `expand` directive decides the `expand` entry: its decoded `into`. */
  lemma {:induction false} LastExpandWins(decode: string -> Option<Json>, ds: seq<Parser.DirectiveInfo>, i: nat)
    requires MetaOf(decode, ds).Success?
    requires i < |ds| && ds[i].name == "expand"
    requires forall j :: i < j < |ds| ==> ds[j].name != "expand"
    ensures ParseInto(decode, IntoOf(ds[i].args)).Success?
    ensures MetaOf(decode, ds).value.meta.expand == Some(ParseInto(decode, IntoOf(ds[i].args)).value)
  {
    if i < |ds| - 1 {
      var p := ds[..|ds| - 1];
      assert forall j :: i < j < |p| ==> p[j] == ds[j];
      LastExpandWins(decode, p, i);
    }
  }

  /** The last `default` directive with a truthy `expr` decides the `default` entry. */
  lemma {:induction false} LastDefaultWins(decode: string -> Option<Json>, ds: seq<Parser.DirectiveInfo>, i: nat)
    requires MetaOf(decode, ds).Success?
    requires i < |ds| && SetsDefault(ds[i])
    requires forall j :: i < j < |ds| ==> !SetsDefault(ds[j])
    ensures MetaOf(decode, ds).value.meta.default == Some(ds[i].args["expr"])
  {
    if i < |ds| - 1 {
      var p := ds[..|ds| - 1];
      assert forall j :: i < j < |p| ==> p[j] == ds[j];
      LastDefaultWins(decode, p, i);
    }
  }

  /** `json_schema_extra` is None exactly when no directive added an entry. */
  lemma ExtraAbsentIff(decode: string -> Option<Json>, field: Parser.FieldInfo, scalars: map<string, string>)
    requires FieldMetaOf(decode, field, scalars).Success?
    ensures var ds := field.directives;
      FieldMetaOf(decode, field, scalars).value.jsonSchemaExtra.None?
      <==> forall i :: 0 <= i < |ds| ==> ds[i].name != "compute" && ds[i].name != "expand" && !SetsDefault(ds[i])
  {
    MetaEntriesPresent(decode, field.directives);
  }

  /** `@compute(fn: "calcCalories")` gives `{"compute": {"fn": "calcCalories"}}` and sets needs_compute. */
  lemma ComputeFnExample(decode: string -> Option<Json>, field: Parser.FieldInfo, scalars: map<string, string>)
    requires field.directives == [Parser.DirectiveInfo("compute", map["fn" := Parser.Str("calcCalories")])]
    ensures FieldMetaOf(decode, field, scalars).Success?
    ensures FieldMetaOf(decode, field, scalars).value.jsonSchemaExtra
      == Some(FieldMeta(Some(ComputeFn(Some(Parser.Str("calcCalories")))), None, None))
    ensures FieldMetaOf(decode, field, scalars).value.needsCompute
  {
    var ds := field.directives;
    assert ds[..|ds| - 1] == [];
    assert MetaOf(decode, ds[..|ds| - 1]) == Success(InitialMeta);
    assert "expr" != "fn" && "expr" !in ds[0].args;
    assert Get(ds[0].args, "fn") == Some(Parser.Str("calcCalories"));
  }

  /** The directive loop of `build_field_meta`. */
  method BuildFieldMeta(decode: string -> Option<Json>, field: Parser.FieldInfo, scalars: map<string, string>)
    returns (r: Result<FieldMetaOut, Raised>)
    ensures r == FieldMetaOf(decode, field, scalars)
  {
    var pythonType := GetPythonType(field.typeName, field.isList, field.isRequired, scalars);
    var ds := field.directives;
    var meta := NoMeta;
    var needsCompute := false;
    var needsExpand := false;
    var i := 0;
    while i < |ds|
      invariant 0 <= i <= |ds|
      invariant MetaOf(decode, ds[..i]) == Success(MetaState(meta, needsCompute, needsExpand))
    {
      var d := ds[i];
      assert ds[..i + 1][..i] == ds[..i];
      if d.name == "compute" {
        meta := meta.(compute := Some(ComputeOf(d.args)));
        needsCompute := true;
      } else if d.name == "expand" {
        var parsed := ParseInto(decode, IntoOf(d.args));
        if parsed.Failure? {
          MetaFailurePersists(decode, ds, i + 1);
          return Failure(parsed.error);
        }
        meta := meta.(expand := Some(parsed.value));
        needsExpand := true;
      } else if d.name == "default" {
        var expr := Get(d.args, "expr");
        if expr.Some? && Truthy(expr.value) {
          meta := meta.(default := Some(expr.value));
        }
      }
      i := i + 1;
    }
    assert ds[..i] == ds;
    var extra := if meta == NoMeta then None else Some(meta);
    r := Success(FieldMetaOut(pythonType, extra, needsCompute, needsExpand));
  }
}
