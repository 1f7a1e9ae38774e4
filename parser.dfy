/**
 * Schema-model assembly (graphql_codegen/parser.py): unwrapping a field's
 * type, collecting directives with their arguments, sorting graphql-core's
 * type map into scalars, enums and types, and picking lines of a base
 * schema by a range list such as "1-10,15-20,25".
 *
 * graphql-core itself is not modelled: its type map is the input, given as
 * the ordered entries of a map from type name to type definition.
 */
module Parser {
  import opened Wrappers
  import opened Text

  // ---------------------------------------------------------------------
  // Input: what graphql-core's built schema hands to the parser
  // ---------------------------------------------------------------------

  /**
   * The value of a directive argument as graphql-core holds it: a literal's
   * `.value` is a Python str for string, int, float and enum literals and a
   * bool for `true` and `false`.
   */
  datatype ArgValue = Str(s: string) | Boolean(b: bool)

  /** An argument node: a literal with a `.value`, or any other value node, known by its str() text. */
  datatype ArgNode = Literal(value: ArgValue) | NoValue(text: string)

  /** A directive node: its name and its arguments in source order. */
  datatype DirectiveNode = DirectiveNode(name: string, arguments: seq<(string, ArgNode)>)

  /** A field's declared type: a named type under List and NonNull wrappers. */
  datatype TypeRef = Named(name: string) | ListOf(ofType: TypeRef) | NonNull(ofType: TypeRef)

  /** A field of an object or interface type; `directives` are those of its AST node (none without one). */
  datatype FieldDef = FieldDef(name: string, typ: TypeRef, directives: seq<DirectiveNode>)

  /** The definition a type-map entry maps its name to. */
  datatype TypeDef =
    | ScalarType
    | EnumType(values: seq<string>)
    | ObjectType(fields: seq<FieldDef>, directives: seq<DirectiveNode>, interfaces: seq<string>)
    | InterfaceType(fields: seq<FieldDef>, directives: seq<DirectiveNode>, interfaces: seq<string>)
    | UnionType(members: seq<string>, directives: seq<DirectiveNode>)
    | InputObjectType

  datatype TypeMapEntry = Entry(name: string, def: TypeDef)

  // ---------------------------------------------------------------------
  // Output: the parsed schema model (parser.py:23-63)
  // ---------------------------------------------------------------------

  datatype DirectiveInfo = DirectiveInfo(name: string, args: map<string, ArgValue>)

  datatype FieldInfo = FieldInfo(
    name: string,
    typeName: string,
    isList: bool,
    isRequired: bool,
    directives: seq<DirectiveInfo>)

  datatype Kind = Object | Interface | Union

  datatype TypeInfo = TypeInfo(
    name: string,
    fields: seq<FieldInfo>,
    directives: seq<DirectiveInfo>,
    kind: Kind,
    interfaces: seq<string>,
    unionTypes: seq<string>)

  datatype EnumInfo = EnumInfo(name: string, values: seq<string>)

  datatype SchemaInfo = SchemaInfo(types: seq<TypeInfo>, scalars: seq<string>, enums: seq<EnumInfo>)

  // ---------------------------------------------------------------------
  // extract_type_name
  // ---------------------------------------------------------------------

  /** graphql-core's str() of a type: `T`, `[T]`, `T!`. */
  function TypeText(t: TypeRef): string
  {
    match t
    case Named(n) => n
    case ListOf(u) => "[" + TypeText(u) + "]"
    case NonNull(u) => TypeText(u) + "!"
  }

  /** The `name` attribute of a named type, otherwise its str(). */
  function NameOf(t: TypeRef): string
  {
    if t.Named? then t.name else TypeText(t)
  }

  /**
   * `(name, is_list, is_required)` of a field type: one outer NonNull is
   * peeled, then one List, then one NonNull inside that List.
   */
  function ExtractTypeName(t: TypeRef): (r: (string, bool, bool))
    ensures r.2 <==> t.NonNull?
    ensures r.1 <==> (t.ListOf? || (t.NonNull? && t.ofType.ListOf?))
  {
    var isRequired := t.NonNull?;
    var t1 := if t.NonNull? then t.ofType else t;
    var isList := t1.ListOf?;
    var t2 := if t1.ListOf? then (if t1.ofType.NonNull? then t1.ofType.ofType else t1.ofType) else t1;
    (NameOf(t2), isList, isRequired)
  }

  /** The field type that the triple describes, with a nullable element. */
  function Rewrap(name: string, isList: bool, isRequired: bool): TypeRef
  {
    var inner := if isList then ListOf(Named(name)) else Named(name);
    if isRequired then NonNull(inner) else inner
  }

  /** Only one List layer is unwrapped: a list of lists is named by its inner list's text. */
  lemma OneListLayer(t: TypeRef)
    ensures ExtractTypeName(ListOf(ListOf(t))) == ("[" + TypeText(t) + "]", true, false)
  {
  }

  /** The element's NonNull is dropped: `[T!]` and `[T]`, `[T!]!` and `[T]!` give the same triple. */
  lemma ElementNullabilityDropped(t: TypeRef)
    requires !t.NonNull?
    ensures ExtractTypeName(ListOf(NonNull(t))) == ExtractTypeName(ListOf(t))
    ensures ExtractTypeName(NonNull(ListOf(NonNull(t)))) == ExtractTypeName(NonNull(ListOf(t)))
  {
  }

  lemma PlainNamedType(n: string)
    ensures ExtractTypeName(Named(n)) == (n, false, false)
    ensures ExtractTypeName(NonNull(Named(n))) == (n, false, true)
  {
  }

  /** The triple determines the field type up to the element's nullability. */
  lemma ExtractRewrap(name: string, isList: bool, isRequired: bool)
    ensures ExtractTypeName(Rewrap(name, isList, isRequired)) == (name, isList, isRequired)
  {
  }

  // ---------------------------------------------------------------------
  // Directive arguments and directives
  // ---------------------------------------------------------------------

  /** The literal `.value` when there is one, otherwise `str(node)`. */
  function ArgValueOf(n: ArgNode): ArgValue
  {
    match n
    case Literal(v) => v
    case NoValue(text) => Str(text)
  }

  /** The `args` dict built argument by argument; a later argument of the same name overwrites. */
  function ArgsOf(arguments: seq<(string, ArgNode)>): map<string, ArgValue>
  {
    if |arguments| == 0 then map[]
    else
      var last := arguments[|arguments| - 1];
      ArgsOf(arguments[..|arguments| - 1])[last.0 := ArgValueOf(last.1)]
  }

  function DirectiveOf(n: DirectiveNode): DirectiveInfo
  {
    DirectiveInfo(n.name, ArgsOf(n.arguments))
  }

  function DirectivesOf(ns: seq<DirectiveNode>): seq<DirectiveInfo>
  {
    seq(|ns|, i requires 0 <= i < |ns| => DirectiveOf(ns[i]))
  }

  /** Every argument name becomes a key, and nothing else does. */
  lemma {:induction false} ArgsOfKeys(arguments: seq<(string, ArgNode)>, k: string)
    ensures k in ArgsOf(arguments) <==> exists i :: 0 <= i < |arguments| && arguments[i].0 == k
  {
    if |arguments| > 0 {
      var front := arguments[..|arguments| - 1];
      ArgsOfKeys(front, k);
      assert forall i :: 0 <= i < |front| ==> front[i] == arguments[i];
    }
  }

  /** A key holds the value of the last argument with that name. */
  lemma {:induction false} ArgsOfLastWins(arguments: seq<(string, ArgNode)>, i: nat)
    requires i < |arguments|
    requires forall j :: i < j < |arguments| ==> arguments[j].0 != arguments[i].0
    ensures arguments[i].0 in ArgsOf(arguments)
    ensures ArgsOf(arguments)[arguments[i].0] == ArgValueOf(arguments[i].1)
  {
    if i < |arguments| - 1 {
      var front := arguments[..|arguments| - 1];
      ArgsOfLastWins(front, i);
    }
  }

  /** Directives keep their source order and their names, known or not. */
  lemma DirectivesKeptInOrder(ns: seq<DirectiveNode>, i: nat)
    requires i < |ns|
    ensures |DirectivesOf(ns)| == |ns|
    ensures DirectivesOf(ns)[i].name == ns[i].name
    ensures DirectivesOf(ns)[i].args == ArgsOf(ns[i].arguments)
  {
  }

  method BuildArgs(arguments: seq<(string, ArgNode)>) returns (args: map<string, ArgValue>)
    ensures args == ArgsOf(arguments)
  {
    args := map[];
    var i := 0;
    while i < |arguments|
      invariant 0 <= i <= |arguments|
      invariant args == ArgsOf(arguments[..i])
    {
      var (argName, argNode) := arguments[i];
      match argNode {
        case Literal(v) => args := args[argName := v];
        case NoValue(text) => args := args[argName := Str(text)];
      }
      assert arguments[..i + 1][..i] == arguments[..i];
      i := i + 1;
    }
    assert arguments[..i] == arguments;
  }

  /**
   * The loop parse_schema_info writes out for the directive nodes of a field
   * and of a type: one DirectiveInfo per node, in order, with its args dict.
   */
  method ReadDirectives(ns: seq<DirectiveNode>) returns (infos: seq<DirectiveInfo>)
    ensures infos == DirectivesOf(ns)
  {
    infos := [];
    var i := 0;
    while i < |ns|
      invariant 0 <= i <= |ns|
      invariant |infos| == i
      invariant forall j :: 0 <= j < i ==> infos[j] == DirectiveOf(ns[j])
    {
      var args := BuildArgs(ns[i].arguments);
      infos := infos + [DirectiveInfo(ns[i].name, args)];
      i := i + 1;
    }
  }

  // ---------------------------------------------------------------------
  // parse_schema_info
  // ---------------------------------------------------------------------

  function FieldInfoOf(d: FieldDef): FieldInfo
  {
    var (typeName, isList, isRequired) := ExtractTypeName(d.typ);
    FieldInfo(d.name, typeName, isList, isRequired, DirectivesOf(d.directives))
  }

  function FieldsOf(ds: seq<FieldDef>): seq<FieldInfo>
  {
    seq(|ds|, i requires 0 <= i < |ds| => FieldInfoOf(ds[i]))
  }

  /** Names such as `__Schema` belong to graphql-core's introspection types and are skipped. */
  predicate IsIntrospection(name: string)
  {
    StartsWith(name, "__")
  }

  /** The schema model after one more type-map entry. */
  function AddEntry(info: SchemaInfo, e: TypeMapEntry): SchemaInfo
  {
    if IsIntrospection(e.name) then info
    else
      match e.def
      case ScalarType => info.(scalars := info.scalars + [e.name])
      case EnumType(values) => info.(enums := info.enums + [EnumInfo(e.name, values)])
      case ObjectType(fs, ds, ifaces) =>
        info.(types := info.types + [TypeInfo(e.name, FieldsOf(fs), DirectivesOf(ds), Object, ifaces, [])])
      case InterfaceType(fs, ds, ifaces) =>
        info.(types := info.types + [TypeInfo(e.name, FieldsOf(fs), DirectivesOf(ds), Interface, ifaces, [])])
      case UnionType(members, ds) =>
        info.(types := info.types + [TypeInfo(e.name, [], DirectivesOf(ds), Union, [], members)])
      case InputObjectType => info
  }

  /**
   * The schema model of the type map's entries, in order. Each entry adds at
   * most one item, and no introspection name reaches any of the lists.
   */
  function SchemaOf(entries: seq<TypeMapEntry>): (r: SchemaInfo)
    ensures |r.types| + |r.scalars| + |r.enums| <= |entries|
    ensures forall k :: 0 <= k < |r.types| ==> !IsIntrospection(r.types[k].name)
    ensures forall k :: 0 <= k < |r.scalars| ==> !IsIntrospection(r.scalars[k])
    ensures forall k :: 0 <= k < |r.enums| ==> !IsIntrospection(r.enums[k].name)
  {
    if |entries| == 0 then SchemaInfo([], [], [])
    else AddEntry(SchemaOf(entries[..|entries| - 1]), entries[|entries| - 1])
  }

  /** The three lists of two schema models, each kept in order. */
  function Merge(a: SchemaInfo, b: SchemaInfo): SchemaInfo
  {
    SchemaInfo(a.types + b.types, a.scalars + b.scalars, a.enums + b.enums)
  }

  method ExtractFields(ds: seq<FieldDef>) returns (fields: seq<FieldInfo>)
    ensures fields == FieldsOf(ds)
  {
    fields := [];
    var i := 0;
    while i < |ds|
      invariant 0 <= i <= |ds|
      invariant |fields| == i
      invariant forall j :: 0 <= j < i ==> fields[j] == FieldInfoOf(ds[j])
    {
      var (typeName, isList, isRequired) := ExtractTypeName(ds[i].typ);
      var fieldDirectives := ReadDirectives(ds[i].directives);
      fields := fields + [FieldInfo(ds[i].name, typeName, isList, isRequired, fieldDirectives)];
      i := i + 1;
    }
  }

  method ParseSchemaInfo(entries: seq<TypeMapEntry>) returns (info: SchemaInfo)
    ensures info == SchemaOf(entries)
  {
    var types: seq<TypeInfo> := [];
    var scalars: seq<string> := [];
    var enums: seq<EnumInfo> := [];
    var i := 0;
    while i < |entries|
      invariant 0 <= i <= |entries|
      invariant SchemaInfo(types, scalars, enums) == SchemaOf(entries[..i])
    {
      var e := entries[i];
      assert entries[..i + 1][..i] == entries[..i];
      if !IsIntrospection(e.name) {
        match e.def {
          case ScalarType =>
            scalars := scalars + [e.name];
          case EnumType(values) =>
            enums := enums + [EnumInfo(e.name, values)];
          case ObjectType(fs, ds, ifaces) =>
            var fields := ExtractFields(fs);
            var typeDirectives := ReadDirectives(ds);
            types := types + [TypeInfo(e.name, fields, typeDirectives, Object, ifaces, [])];
          case InterfaceType(fs, ds, ifaces) =>
            var fields := ExtractFields(fs);
            var typeDirectives := ReadDirectives(ds);
            types := types + [TypeInfo(e.name, fields, typeDirectives, Interface, ifaces, [])];
          case UnionType(members, ds) =>
            var typeDirectives := ReadDirectives(ds);
            types := types + [TypeInfo(e.name, [], typeDirectives, Union, [], members)];
          case InputObjectType =>
        }
      }
      i := i + 1;
    }
    assert entries[..i] == entries;
    info := SchemaInfo(types, scalars, enums);
  }

  /** The model of a concatenation of type maps is the merge of their models: type-map order is kept. */
  lemma {:induction false} SchemaOfAppend(a: seq<TypeMapEntry>, b: seq<TypeMapEntry>)
    ensures SchemaOf(a + b) == Merge(SchemaOf(a), SchemaOf(b))
  {
    if |b| == 0 {
      assert a + b == a;
    } else {
      var b', e := b[..|b| - 1], b[|b| - 1];
      DropLastOfAppend(a, b);
      SchemaOfAppend(a, b');
      assert SchemaOf(a + b) == AddEntry(SchemaOf(a + b'), e);
      assert SchemaOf(b) == AddEntry(SchemaOf(b'), e);
      AddEntryMerge(SchemaOf(a), SchemaOf(b'), e);
    }
  }

  lemma DropLastOfAppend<T>(a: seq<T>, b: seq<T>)
    requires |b| > 0
    ensures (a + b)[..|a + b| - 1] == a + b[..|b| - 1]
    ensures (a + b)[|a + b| - 1] == b[|b| - 1]
  {
  }

  /** Adding an entry to a merge adds it to the second model. */
  lemma AddEntryMerge(x: SchemaInfo, y: SchemaInfo, e: TypeMapEntry)
    ensures AddEntry(Merge(x, y), e) == Merge(x, AddEntry(y, e))
  {
  }

  /**
   * One entry lands in at most one list: introspection names and input
   * objects nowhere, scalars among the scalars, enums among the enums, the
   * rest among the types.
   */
  lemma EntryPlacement(e: TypeMapEntry)
    ensures var m := SchemaOf([e]);
      && (IsIntrospection(e.name) || e.def.InputObjectType? ==> m == SchemaInfo([], [], []))
      && (!IsIntrospection(e.name) && e.def.ScalarType? ==> m == SchemaInfo([], [e.name], []))
      && (!IsIntrospection(e.name) && e.def.EnumType? ==> m == SchemaInfo([], [], [EnumInfo(e.name, e.def.values)]))
      && (!IsIntrospection(e.name) && (e.def.ObjectType? || e.def.InterfaceType? || e.def.UnionType?) ==>
            |m.types| == 1 && m.types[0].name == e.name && m.scalars == [] && m.enums == [])
  {
    assert [e][..0] == [];
  }

  /** Each entry contributes exactly its own part, between what precedes and what follows it. */
  lemma EntryInPlace(entries: seq<TypeMapEntry>, i: nat)
    requires i < |entries|
    ensures SchemaOf(entries) == Merge(Merge(SchemaOf(entries[..i]), SchemaOf([entries[i]])), SchemaOf(entries[i + 1..]))
  {
    AroundIndex(entries, i);
    SchemaOfThree(entries, entries[..i], entries[i], entries[i + 1..]);
  }

  lemma AroundIndex<T>(s: seq<T>, i: nat)
    requires i < |s|
    ensures s == s[..i] + [s[i]] + s[i + 1..]
  {
  }

  lemma SchemaOfThree(entries: seq<TypeMapEntry>, a: seq<TypeMapEntry>, e: TypeMapEntry, b: seq<TypeMapEntry>)
    requires entries == a + [e] + b
    ensures SchemaOf(entries) == Merge(Merge(SchemaOf(a), SchemaOf([e])), SchemaOf(b))
  {
    SchemaOfAppend(a + [e], b);
    SchemaOfAppend(a, [e]);
  }

  /**
   * A union keeps its members in order and owns no fields; objects and
   * interfaces keep their fields, their own directives and their interfaces.
   */
  lemma TypeEntryShape(e: TypeMapEntry)
    requires !IsIntrospection(e.name) && (e.def.ObjectType? || e.def.InterfaceType? || e.def.UnionType?)
    ensures var t := SchemaOf([e]).types[0];
      && (e.def.UnionType? ==>
            t == TypeInfo(e.name, [], DirectivesOf(e.def.directives), Union, [], e.def.members))
      && (e.def.ObjectType? ==> t.kind == Object)
      && (e.def.InterfaceType? ==> t.kind == Interface)
      && (!e.def.UnionType? ==>
            && t.interfaces == e.def.interfaces && t.unionTypes == []
            && t.directives == DirectivesOf(e.def.directives)
            && |t.fields| == |e.def.fields|
            && forall k :: 0 <= k < |t.fields| ==>
                 t.fields[k].name == e.def.fields[k].name && t.fields[k] == FieldInfoOf(e.def.fields[k]))
  {
    assert [e][..0] == [];
  }

  // ---------------------------------------------------------------------
  // extract_schema_lines
  // ---------------------------------------------------------------------

  predicate IsDigit(c: char)
  {
    '0' <= c <= '9'
  }

  /** Decimal digits, with single underscores allowed between digits, as int() takes them. */
  predicate IsDigitGroups(s: string)
  {
    && |s| > 0 && IsDigit(s[0])
    && (|s| == 1 || IsDigitGroups(s[1..]) || (s[1] == '_' && IsDigitGroups(s[2..])))
  }

  function DigitsValue(s: string): nat
  {
    if |s| == 0 then 0
    else
      var front := DigitsValue(s[..|s| - 1]);
      var c := s[|s| - 1];
      if IsDigit(c) then 10 * front + (c as int - '0' as int) else front
  }

  /** Python's int() on a string: surrounding whitespace, an optional sign, decimal digits. */
  function ParseInt(s: string): Option<int>
  {
    var t := Strip(s);
    if |t| > 0 && (t[0] == '+' || t[0] == '-') then
      if IsDigitGroups(t[1..]) then
        var v: int := DigitsValue(t[1..]);
        Some(if t[0] == '-' then -v else v)
      else None
    else if IsDigitGroups(t) then Some(DigitsValue(t))
    else None
  }

  /** One comma-separated range: `start-end` or a single line number, both 1-based. */
  datatype LineRange = Span(start: int, end: int) | Single(line: int)

  /** A stripped range spec; None where `int()` or the two-value unpacking raises ValueError. */
  function ParseRange(spec: string): Option<LineRange>
  {
    if '-' in spec then
      var parts := Split(spec, '-');
      if |parts| != 2 then None
      else
        match (ParseInt(parts[0]), ParseInt(parts[1]))
        case (Some(a), Some(b)) => Some(Span(a, b))
        case _ => None
    else
      match ParseInt(spec)
      case Some(n) => Some(Single(n))
      case None => None
  }

  /** A slice bound as Python adjusts it: negative counts from the end, then clamped to [0, n]. */
  function SliceBound(i: int, n: nat): (r: nat)
    ensures r <= n
  {
    if i < 0 then (if i + n < 0 then 0 else i + n)
    else if i > n then n
    else i
  }

  /** `xs[lo:hi]` */
  function PySlice<T>(xs: seq<T>, lo: int, hi: int): seq<T>
  {
    var a := SliceBound(lo, |xs|);
    var b := SliceBound(hi, |xs|);
    if a < b then xs[a..b] else []
  }

  /** `xs[i]`: None where Python raises IndexError. */
  function PyIndex<T>(xs: seq<T>, i: int): Option<T>
  {
    if 0 <= i < |xs| then Some(xs[i])
    else if -|xs| <= i < 0 then Some(xs[i + |xs|])
    else None
  }

  /** `lines[start - 1 : end]` for a span, `[lines[n - 1]]` for a single line. */
  function RangeLines(lines: seq<string>, r: LineRange): Option<seq<string>>
  {
    match r
    case Span(a, b) => Some(PySlice(lines, a - 1, b))
    case Single(n) =>
      match PyIndex(lines, n - 1)
      case Some(line) => Some([line])
      case None => None
  }

  /** The lines one comma-separated piece selects, after stripping it. */
  function PieceLines(lines: seq<string>, piece: string): Option<seq<string>>
  {
    match ParseRange(Strip(piece))
    case Some(r) => RangeLines(lines, r)
    case None => None
  }

  /** The pieces' selections concatenated in order; None once one of them raises. */
  function Gather<T>(xs: seq<Option<seq<T>>>): Option<seq<T>>
  {
    if |xs| == 0 then Some([])
    else
      match Gather(xs[..|xs| - 1])
      case None => None
      case Some(front) =>
        match xs[|xs| - 1]
        case None => None
        case Some(more) => Some(front + more)
  }

  function PiecesLines(lines: seq<string>, pieces: seq<string>): seq<Option<seq<string>>>
  {
    seq(|pieces|, i requires 0 <= i < |pieces| => PieceLines(lines, pieces[i]))
  }

  /**
   * The schema text `extract_schema_lines` returns for already-read lines;
   * None, where it raises, exactly when one of the comma-separated pieces raises.
   */
  function SchemaLinesText(lines: seq<string>, lineRanges: string): (r: Option<string>)
    ensures r.None? ==>
      exists k :: 0 <= k < |Split(lineRanges, ',')| && PieceLines(lines, Split(lineRanges, ',')[k]).None?
    ensures (exists k :: 0 <= k < |Split(lineRanges, ',')| && PieceLines(lines, Split(lineRanges, ',')[k]).None?) ==>
      r.None?
  {
    PiecesRaiseIff(lines, Split(lineRanges, ','));
    var gathered := Gather(PiecesLines(lines, Split(lineRanges, ',')));
    if gathered.None? then None else Some(Concat(gathered.value))
  }

  lemma PiecesRaiseIff(lines: seq<string>, pieces: seq<string>)
    ensures Gather(PiecesLines(lines, pieces)).None? <==>
      exists k :: 0 <= k < |pieces| && PieceLines(lines, pieces[k]).None?
  {
    var xs := PiecesLines(lines, pieces);
    GatherNoneIff(xs);
    assert forall k :: 0 <= k < |pieces| ==> xs[k] == PieceLines(lines, pieces[k]);
  }

  /** Gathering raises exactly when one of the pieces raises. */
  lemma {:induction false} GatherNoneIff<T>(xs: seq<Option<seq<T>>>)
    ensures Gather(xs).None? <==> exists i :: 0 <= i < |xs| && xs[i].None?
  {
    if |xs| > 0 {
      var q := xs[..|xs| - 1];
      GatherNoneIff(q);
      assert forall i :: 0 <= i < |q| ==> q[i] == xs[i];
    }
  }

  lemma {:induction false} GatherFailurePersists<T>(xs: seq<Option<seq<T>>>, i: nat)
    requires i <= |xs|
    requires Gather(xs[..i]).None?
    ensures Gather(xs).None?
  {
    if i < |xs| {
      assert xs[..|xs| - 1][..i] == xs[..i];
      GatherFailurePersists(xs[..|xs| - 1], i);
    } else {
      assert xs[..i] == xs;
    }
  }

  lemma {:induction false} GatherAppend<T>(p: seq<Option<seq<T>>>, q: seq<Option<seq<T>>>)
    ensures Gather(p + q) ==
      (if Gather(p).Some? && Gather(q).Some? then Some(Gather(p).value + Gather(q).value) else None)
  {
    if |q| == 0 {
      assert p + q == p;
      if Gather(p).Some? {
        assert Gather(p).value + [] == Gather(p).value;
      }
    } else {
      var q' := q[..|q| - 1];
      assert (p + q)[..|p + q| - 1] == p + q';
      assert (p + q)[|p + q| - 1] == q[|q| - 1];
      GatherAppend(p, q');
      if Gather(p).Some? && Gather(q').Some? && q[|q| - 1].Some? {
        assert Gather(p).value + (Gather(q').value + q[|q| - 1].value)
          == Gather(p).value + Gather(q').value + q[|q| - 1].value;
      }
    }
  }

  /** Ranges are taken in the order listed: the selection of `p + q` is that of `p` followed by that of `q`. */
  lemma RangesInOrder(lines: seq<string>, p: seq<string>, q: seq<string>)
    ensures var (a, b) := (Gather(PiecesLines(lines, p)), Gather(PiecesLines(lines, q)));
      Gather(PiecesLines(lines, p + q)) == if a.Some? && b.Some? then Some(a.value + b.value) else None
  {
    assert PiecesLines(lines, p + q) == PiecesLines(lines, p) + PiecesLines(lines, q);
    GatherAppend(PiecesLines(lines, p), PiecesLines(lines, q));
  }

  /** Within the file, `a-b` gives lines a..b inclusive (1-based); a reversed span gives none. */
  lemma SpanLines(lines: seq<string>, a: int, b: int)
    requires 1 <= a && 0 <= b <= |lines|
    ensures a <= b ==> RangeLines(lines, Span(a, b)) == Some(lines[a - 1..b])
    ensures b < a ==> RangeLines(lines, Span(a, b)) == Some([])
  {
    assert SliceBound(b, |lines|) == b;
  }

  /** Within the file, `n` gives line n; past the end it raises. */
  lemma SingleLine(lines: seq<string>, n: int)
    ensures 1 <= n <= |lines| ==> RangeLines(lines, Single(n)) == Some([lines[n - 1]])
    ensures n > |lines| ==> RangeLines(lines, Single(n)) == None
  {
  }

  lemma DigitFacts(c: char)
    requires IsDigit(c)
    ensures Strip([c]) == [c]
    ensures IsDigitGroups([c])
    ensures DigitsValue([c]) == c as int - '0' as int
  {
    assert TrimStart([c]) == [c];
    assert TrimEnd([c]) == [c];
    assert [c][..0] == "";
  }

  lemma ParseDigit(c: char)
    requires IsDigit(c)
    ensures ParseInt([c]) == Some(c as int - '0' as int)
  {
    DigitFacts(c);
  }

  /** The decimal text of a natural number, as `str(n)` writes it. */
  function DecimalText(n: nat): (r: string)
    ensures |r| > 0 && forall k :: 0 <= k < |r| ==> IsDigit(r[k])
  {
    var d := [('0' as int + n % 10) as char];
    if n < 10 then d else DecimalText(n / 10) + d
  }

  lemma {:induction false} AllDigitsAreGroups(s: string)
    requires |s| > 0 && forall k :: 0 <= k < |s| ==> IsDigit(s[k])
    ensures IsDigitGroups(s)
  {
    if |s| > 1 {
      AllDigitsAreGroups(s[1..]);
    }
  }

  lemma {:induction false} DecimalValue(n: nat)
    ensures DigitsValue(DecimalText(n)) == n
  {
    var s := DecimalText(n);
    if n >= 10 {
      DecimalValue(n / 10);
      assert s[..|s| - 1] == DecimalText(n / 10);
    }
  }

  /** A text that neither starts nor ends with whitespace is its own strip. */
  lemma StripUnpadded(s: string)
    requires |s| > 0 && !IsSpace(s[0]) && !IsSpace(s[|s| - 1])
    ensures Strip(s) == s
  {
  }

  /** int() reads the decimal text of every natural number back as that number. */
  lemma ParseDecimal(n: nat)
    ensures ParseInt(DecimalText(n)) == Some(n)
  {
    var s := DecimalText(n);
    StripUnpadded(s);
    AllDigitsAreGroups(s);
    DecimalValue(n);
  }

  /** A piece `a-b` written with decimal numbers selects the span from a to b. */
  lemma DecimalSpanPiece(lines: seq<string>, a: nat, b: nat)
    ensures PieceLines(lines, DecimalText(a) + "-" + DecimalText(b)) == RangeLines(lines, Span(a, b))
  {
    var x, y := DecimalText(a), DecimalText(b);
    var s := x + "-" + y;
    assert s[0] == x[0] && s[|s| - 1] == y[|y| - 1];
    StripUnpadded(s);
    assert '-' in s by { assert s[|x|] == '-'; }
    assert '-' !in x && '-' !in y;
    SplitAfterPiece(x, y, '-');
    SplitWithoutSep(y, '-');
    ParseDecimal(a);
    ParseDecimal(b);
  }

  /** A piece `n` written as a decimal number selects line n. */
  lemma DecimalLinePiece(lines: seq<string>, n: nat)
    ensures PieceLines(lines, DecimalText(n)) == RangeLines(lines, Single(n))
  {
    StripUnpadded(DecimalText(n));
    assert '-' !in DecimalText(n);
    ParseDecimal(n);
  }

  /** Python's negative indexing: line "0" is the last line of a non-empty file. */
  lemma LineZeroIsLast(lines: seq<string>)
    requires |lines| > 0
    ensures PieceLines(lines, "0") == Some([lines[|lines| - 1]])
  {
    ParseDigit('0');
    DigitFacts('0');
  }

  lemma SplitStep(c: char, t: string, sep: char)
    ensures c == sep ==> Split([c] + t, sep) == [""] + Split(t, sep)
    ensures c != sep ==> Split([c] + t, sep) == [[c] + Split(t, sep)[0]] + Split(t, sep)[1..]
  {
    assert ([c] + t)[1..] == t;
  }

  lemma SplitCommaExample()
    ensures Split("1-2,5", ',') == ["1-2", "5"]
  {
    SplitStep('5', "", ',');
    assert "5" == ['5'] + "";
    assert Split("5", ',') == ["5"];
    SplitStep(',', "5", ',');
    assert ",5" == [','] + "5";
    assert Split(",5", ',') == ["", "5"];
    SplitStep('2', ",5", ',');
    assert "2,5" == ['2'] + ",5";
    assert ['2'] + "" == "2";
    assert ["", "5"][1..] == ["5"];
    assert Split("2,5", ',') == ["2", "5"];
    SplitStep('-', "2,5", ',');
    assert "-2,5" == ['-'] + "2,5";
    assert ['-'] + "2" == "-2";
    assert ["2", "5"][1..] == ["5"];
    assert Split("-2,5", ',') == ["-2", "5"];
    SplitStep('1', "-2,5", ',');
    assert "1-2,5" == ['1'] + "-2,5";
    assert ['1'] + "-2" == "1-2";
    assert ["-2", "5"][1..] == ["5"];
  }

  lemma SplitDashExample()
    ensures Split("1-2", '-') == ["1", "2"]
  {
    SplitStep('2', "", '-');
    assert "2" == ['2'] + "";
    assert Split("2", '-') == ["2"];
    SplitStep('-', "2", '-');
    assert "-2" == ['-'] + "2";
    assert Split("-2", '-') == ["", "2"];
    SplitStep('1', "-2", '-');
    assert "1-2" == ['1'] + "-2";
    assert ['1'] + "" == "1";
  }

  lemma ParseRangeExamples()
    ensures ParseRange("1-2") == Some(Span(1, 2))
    ensures ParseRange("5") == Some(Single(5))
  {
    SplitDashExample();
    ParseDigit('1');
    ParseDigit('2');
    ParseDigit('5');
    assert Strip("1-2") == "1-2" by {
      assert TrimStart("1-2") == "1-2";
      assert TrimEnd("1-2") == "1-2";
    }
    assert Strip("5") == "5" by {
      assert TrimStart("5") == "5";
    }
    assert '-' in "1-2";
    assert '-' !in "5";
  }

  lemma GatherTwo<T>(a: seq<T>, b: seq<T>)
    ensures Gather([Some(a), Some(b)]) == Some(a + b)
  {
    var xs := [Some(a), Some(b)];
    assert xs[..1][..0] == [];
    assert [] + a == a;
    assert Gather(xs[..1]) == Some(a);
  }

  lemma ConcatThree(a: string, b: string, c: string)
    ensures Concat([a, b, c]) == a + b + c
  {
    var three := [a, b, c];
    assert three[1..] == [b, c] && three[1..][1..] == [c];
    assert Concat([c]) == c + Concat([]);
    assert Concat([b, c]) == b + Concat([c]);
    assert c + "" == c;
  }

  lemma PiecesOneTwoFive(lines: seq<string>)
    requires |lines| == 20
    ensures PiecesLines(lines, ["1-2", "5"]) == [Some(lines[0..2]), Some([lines[4]])]
  {
    ParseRangeExamples();
  }

  /** With a 20-line file, "1-2,5" selects exactly lines 1, 2 and 5, in that order. */
  lemma ExampleOneTwoFive(lines: seq<string>)
    requires |lines| == 20
    ensures SchemaLinesText(lines, "1-2,5") == Some(lines[0] + lines[1] + lines[4])
  {
    SplitCommaExample();
    var pieces := Split("1-2,5", ',');
    PiecesOneTwoFive(lines);
    var xs := PiecesLines(lines, pieces);
    assert xs == [Some(lines[0..2]), Some([lines[4]])];
    var selected := lines[0..2] + [lines[4]];
    GatherTwo(lines[0..2], [lines[4]]);
    assert selected == [lines[0], lines[1], lines[4]];
    ConcatThree(lines[0], lines[1], lines[4]);
  }

  /** Repeated ranges repeat their lines: no sorting, no de-duplication. */
  lemma RepeatedRangeRepeats(lines: seq<string>, pieces: seq<string>)
    requires Gather(PiecesLines(lines, pieces)).Some?
    ensures var once := Gather(PiecesLines(lines, pieces)).value;
      Gather(PiecesLines(lines, pieces + pieces)) == Some(once + once)
  {
    RangesInOrder(lines, pieces, pieces);
  }

  method ExtractSchemaLines(lines: seq<string>, lineRanges: string) returns (r: Option<string>)
    ensures r == SchemaLinesText(lines, lineRanges)
  {
    var ranges := Split(lineRanges, ',');
    ghost var pieces := PiecesLines(lines, ranges);
    var selected: seq<string> := [];
    var i := 0;
    while i < |ranges|
      invariant 0 <= i <= |ranges|
      invariant Gather(pieces[..i]) == Some(selected)
    {
      assert pieces[..i + 1][..i] == pieces[..i];
      assert pieces[..i + 1][i] == PieceLines(lines, ranges[i]);
      var rangeSpec := Strip(ranges[i]);
      var range := ParseRange(rangeSpec);
      if range.None? {
        GatherFailurePersists(pieces, i + 1);
        return None;
      }
      match range.value {
        case Span(start, end) =>
          selected := selected + PySlice(lines, start - 1, end);
        case Single(lineNum) =>
          var line := PyIndex(lines, lineNum - 1);
          if line.None? {
            GatherFailurePersists(pieces, i + 1);
            return None;
          }
          selected := selected + [line.value];
      }
      i := i + 1;
    }
    assert pieces[..i] == pieces;
    r := Some(Concat(selected));
  }
}
