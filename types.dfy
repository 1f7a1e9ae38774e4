/**
 * The generator's intermediate representation handed to the templates
 * (graphql_codegen/generator/types.py), together with the values that flow
 * into it: decoded JSON and the exceptions the resolution can raise.
 */
module Types {
  import opened Wrappers
  import Parser

  /** A decoded JSON document; numbers keep their literal text. */
  datatype Json =
    | JNull
    | JBool(b: bool)
    | JNum(text: string)
    | JStr(s: string)
    | JArr(items: seq<Json>)
    | JObj(members: seq<(string, Json)>)

  /** The exceptions that abort type collection. */
  datatype Raised =
    | JsonTypeError      // json.loads given a bool: TypeError, not caught by parse_into
    | ValidationError    // pydantic rejecting a bool where MethodInfo wants a str

  /** The `compute` entry of a field's metadata: `{"expr": e}` or `{"fn": f}` where f may be None. */
  datatype ComputeMeta = ComputeExpr(expr: Parser.ArgValue) | ComputeFn(fn: Option<Parser.ArgValue>)

  /** A field's `json_schema_extra` dict: its three possible keys, each present or absent. */
  datatype FieldMeta = FieldMeta(
    compute: Option<ComputeMeta>,
    expand: Option<Json>,
    default: Option<Parser.ArgValue>)

  const NoMeta: FieldMeta := FieldMeta(None, None, None)

  datatype FieldInfo = FieldInfo(name: string, pythonType: string, jsonSchemaExtra: Option<FieldMeta>)

  datatype MethodInfo = MethodInfo(name: string, returnType: string, expr: Option<string>, fn: Option<string>)

  /**
   * One class or alias to render. `expansionSpec` is the parsed value of the
   * last type-level `expand` directive, from which the template text is made.
   */
  datatype TypeInfo = TypeInfo(
    name: string,
    baseClasses: seq<string>,
    fields: seq<FieldInfo>,
    methods: seq<MethodInfo>,
    staticMethods: seq<MethodInfo>,
    expansionSpec: Option<Json>,
    kind: Parser.Kind,
    unionTypes: seq<string>,
    interfaces: seq<string>)
}
