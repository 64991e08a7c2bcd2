/** The Rust text that the generator writes for one libvips operation: the wrapper
    function, and for an operation with optional arguments an options record and a
    second wrapper that takes it; their documentation; the local variables, the
    native call and the conversion of its results. */
module Emitter {
  import opened Base
  import opened Text
  import opened Foreign
  import opened Types

  /** A text per parameter, in order (the `.iter().map(..)` of the source). */
  function MapParams(ps: seq<Parameter>, f: Parameter -> string): (r: seq<string>)
    ensures |r| == |ps|
    ensures forall i :: 0 <= i < |ps| ==> r[i] == f(ps[i])
  {
    seq(|ps|, i requires 0 <= i < |ps| => f(ps[i]))
  }

  // ---------------------------------------------------------------------------
  // Parameters

  /** `Parameter::as_out_param`: the Rust value made of an output slot once libvips
      has filled it. */
  function AsOutParam(p: Parameter): string {
    var n := p.name;
    var slot := n + "_out";
    match p.paramType
    case ArrayByte => "utils::new_byte_array(" + slot + (", " + n + "_buf_size)")
    case VipsImage(_) => "VipsImage{ ctx: " + slot + " }"
    case VipsInterpolate => "VipsInterpolate{ ctx: " + slot + " }"
    case VipsBlob => "VipsBlob{ ctx: " + slot + " }.into()"
    case Int(_, _, _) => slot
    case UInt(_, _, _) => slot
    case Double(_, _, _) => slot
    case Bool(_) => slot + " != 0"
    case ArrayInt => "utils::new_int_array(" + slot + (", " + n + "_array_size)")
    case ArrayDouble => "utils::new_double_array(" + slot + (", " + n + "_array_size)")
    case Str => "*" + slot
    case Enum(_, _, _) => "*" + slot
    case ArrayImage => "*" + slot
  }

  /** The documentation of a parameter shown with the Rust type `typeName`: a line
      with name, type and description, then the kind's own documentation lines. */
  function DocWith(p: Parameter, typeName: string, env: Env): string {
    var main := "/// " + p.name + ": `" + typeName + "` -> " + p.description;
    var dc := TypeDoc(p.paramType, env);
    if dc == "" then main else main + "\n" + dc
  }

  /** `Parameter::doc`: the documentation of a positional argument. */
  function ParamDoc(p: Parameter, env: Env): string {
    DocWith(p, ParamTypeName(p.paramType), env)
  }

  /** `Parameter::doc_struct`: the documentation of a field of an options record. */
  function FieldDoc(p: Parameter, env: Env): string {
    DocWith(p, StructType(p.paramType), env)
  }

  /** The native value that `declare_in_variable` converts an input argument to. */
  function InValue(p: Parameter): string {
    var n := p.name;
    match p.paramType
    case Int(_, _, _) => n
    case UInt(_, _, _) => n
    case Double(_, _, _) => n
    case Str => "utils::new_c_string(" + n + ")?"
    case Bool(_) => "if " + n + " { 1 } else { 0 }"
    case ArrayInt => n + ".as_mut_ptr()"
    case ArrayDouble => n + ".as_mut_ptr()"
    case ArrayByte => n + ".as_ptr() as " + VipsInType(p.paramType, false)
    case ArrayImage => n + ".iter().map(|v| v.ctx).collect::<Vec<_>>().as_mut_ptr()"
    case VipsInterpolate => n + ".ctx"
    case VipsImage(_) => n + ".ctx"
    case VipsBlob => n + ".ctx"
    case Enum(_, _, _) => n + " as i32"
  }

  /** A `let` of the native variable `<name>_in`. */
  function LetIn(name: string, nativeType: string, value: string): string {
    "let " + name + "_in: " + nativeType + " = " + value + ";"
  }

  /** `Parameter::declare_in_variable`: the native variable of a positional input. */
  function DeclareIn(p: Parameter): string {
    LetIn(p.name, VipsInType(p.paramType, false), InValue(p))
  }

  /** `Parameter::declare_in_variable_optional`: the native variable of an optional
      input, read from the field of the record `<optName>_options`. An array is
      first wrapped, and the variable is the wrapper's pointer. */
  function DeclareInOptional(p: Parameter, optName: string): string {
    var n := p.name;
    var ty := VipsInType(p.paramType, true);
    var field := optName + "_options." + n;
    match p.paramType
    case Int(_, _, _) => LetIn(n, ty, field)
    case UInt(_, _, _) => LetIn(n, ty, field)
    case Double(_, _, _) => LetIn(n, ty, field)
    case Str => LetIn(n, ty, "utils::new_c_string(&" + field + ")?")
    case Bool(_) => LetIn(n, ty, "if " + field + " { 1 } else { 0 }")
    case ArrayDouble => "let " + n + "_wrapper = " + ty + "::from(&" + field + "[..]); \nlet " + n + "_in = " + n + "_wrapper.ctx;"
    case ArrayImage => "let " + n + "_wrapper = " + ty + "::from(&" + field + "[..]); \nlet " + n + "_in = " + n + "_wrapper.ctx;"
    case ArrayInt => "let " + n + "_wrapper = " + ty + "::from(&" + field + "[..]); \nlet " + n + "_in = " + n + "_wrapper.ctx;"
    case ArrayByte => LetIn(n, ty, field + ".as_mut_ptr()")
    case VipsBlob => LetIn(n, ty, field + ".ctx")
    case VipsImage(_) => LetIn(n, ty, field + ".ctx")
    case VipsInterpolate => LetIn(n, ty, field + ".ctx")
    case Enum(_, _, _) => LetIn(n, ty, field + " as i32")
  }

  /** `Parameter::declare_opt_name`: the C string holding the libvips name by which
      an optional argument is passed. */
  function DeclareOptName(p: Parameter): string {
    "let " + p.name + "_in_name = utils::new_c_string(\"" + p.vipsName + "\")?;"
  }

  /** `Parameter::opt_param_pair`: an optional argument of the native call, as its
      name and its value. */
  function OptParamPair(p: Parameter): string {
    var value := if p.paramType.Str? then p.name + "_in.as_ptr()" else p.name + "_in";
    p.name + "_in_name.as_ptr(), " + value
  }

  /** A `let mut` of the output slot `<name>_out`. */
  function LetOut(name: string, nativeType: string, value: string): string {
    "let mut " + name + "_out: " + nativeType + " = " + value + ";"
  }

  /** `Parameter::declare_out_variable`: the slot (and, for arrays, the length)
      that the native call fills. Numbers start at their default. */
  function DeclareOut(p: Parameter, env: Env): string {
    var n := p.name;
    var ty := VipsOutType(p.paramType);
    match p.paramType
    case ArrayByte => "let mut " + n + "_buf_size: u64 = 0;\n" + LetOut(n, ty, "null_mut()")
    case Int(_, _, _) => LetOut(n, ty, Default(p.paramType, env).value)
    case Double(_, _, _) => LetOut(n, ty, Default(p.paramType, env).value)
    case UInt(_, _, _) => LetOut(n, ty, Default(p.paramType, env).value)
    case ArrayDouble => "let mut " + n + "_array_size: usize = 0;\n" + LetOut(n, ty, "null_mut()")
    case ArrayInt => "let mut " + n + "_array_size: usize = 0;\n" + LetOut(n, ty, "null_mut()")
    case ArrayImage => "let mut " + n + "_array_size: usize = 0;\n" + LetOut(n, ty, "null_mut()")
    case Bool(_) => LetOut(n, ty, "0")
    case _ => LetOut(n, ty, "null_mut()")
  }

  /** `Parameter::default`: the initialiser of an options field. A string whose
      description mentions `ICC` defaults to `sRGB`; otherwise the kind's default,
      which fails for an enumeration whose default is none of its entries. */
  function FieldDefault(p: Parameter, env: Env): Result<string> {
    if p.paramType.Str? && Contains(p.description, "ICC") then Ok(p.name + ": String::from(\"sRGB\")")
    else
      match Default(p.paramType, env)
      case Some(d) => Ok(p.name + ": " + d)
      case None => Err(NoEnumDefault(if p.paramType.Enum? then p.paramType.enumName else ""))
  }

  /** `Parameter::struct_declaration`: an options field. */
  function StructDeclaration(p: Parameter): string {
    p.name + ": " + StructType(p.paramType)
  }

  /** `Parameter::param_declaration`: a positional argument of a wrapper. */
  function ParamDeclaration(p: Parameter): string {
    p.name + ": " + ParamTypeName(p.paramType)
  }

  /** The arguments of the native call for an output slot (in `get_params`). */
  function OutArgs(p: Parameter): string {
    var n := p.name;
    match p.paramType
    case ArrayByte => "&mut " + n + "_out, &mut " + n + "_buf_size"
    case ArrayInt => "&mut " + n + "_out, &mut " + n + "_array_size"
    case ArrayDouble => "&mut " + n + "_out, &mut " + n + "_array_size"
    case ArrayImage => "&mut " + n + "_out, &mut " + n + "_array_size"
    case VipsImage(prev) =>
      if prev.Some? then "&mut " + n + "_out, " + prev.value + ".len() as i32" else "&mut " + n + "_out"
    case _ => "&mut " + n + "_out"
  }

  /** The arguments of the native call for a positional input (in `get_params`). */
  function InArgs(p: Parameter): string {
    var n := p.name;
    match p.paramType
    case ArrayInt => n + "_in, " + n + ".len() as i32"
    case ArrayDouble => n + "_in, " + n + ".len() as i32"
    case ArrayImage => n + "_in"
    case ArrayByte => n + "_in, " + n + ".len() as u64"
    case Enum(_, _, _) => n + "_in.try_into().unwrap()"
    case Str => n + "_in.as_ptr()"
    case _ => n + "_in"
  }

  /** A parameter is passed as an output when an output has its name (the
      name-only equality of `Parameter`). */
  function CallArgs(output: seq<Parameter>, p: Parameter): string {
    if ContainsParameter(output, p) then OutArgs(p) else InArgs(p)
  }

  // ---------------------------------------------------------------------------
  // Ordering the positional arguments

  /** The parameters of order `k`, in their original order. */
  function WithOrder(ps: seq<Parameter>, k: int): (r: seq<Parameter>)
    ensures forall i :: 0 <= i < |r| ==> r[i].order == k
    ensures |r| <= |ps|
  {
    if |ps| == 0 then []
    else (if ps[0].order == k then [ps[0]] else []) + WithOrder(ps[1..], k)
  }

  /** The parameters of order `k` and above, orders ascending, each order's
      parameters in their original order. */
  function SortFrom(ps: seq<Parameter>, k: nat): seq<Parameter>
    decreases 256 - k
  {
    if k >= 256 then [] else WithOrder(ps, k) + SortFrom(ps, k + 1)
  }

  /** `sort_by_key(|p| p.order)`, a stable sort on the `u8` order. */
  function SortByOrder(ps: seq<Parameter>): seq<Parameter> {
    SortFrom(ps, 0)
  }

  // ---------------------------------------------------------------------------
  // Operations

  /** The documentation of each positional argument. */
  function ParamDocs(op: Operation, env: Env): (r: seq<string>)
    ensures |r| == |op.required| && forall i :: 0 <= i < |r| ==> r[i] == ParamDoc(op.required[i], env)
  {
    MapParams(op.required, (p: Parameter) => ParamDoc(p, env))
  }

  /** `Operation::doc_base`: the description, then the positional arguments. */
  function DocBase(op: Operation, env: Env): string {
    "/// " + op.description + "\n" + Join(ParamDocs(op, env), "\n")
  }

  /** `Operation::doc_optional`. */
  function DocOptional(op: Operation, env: Env): string {
    "/// " + op.name + "_options: `&" + env.classCase(op.name) + "Options` -> optional arguments"
  }

  /** The documentation line of each component of a result tuple. */
  function ComponentDocs(op: Operation): (r: seq<string>)
    ensures |r| == |op.output|
    ensures forall i :: 0 <= i < |r| ==> r[i] == "/// " + StructType(op.output[i].paramType) + " - " + op.output[i].description
  {
    MapParams(op.output, (p: Parameter) => "/// " + StructType(p.paramType) + " - " + p.description)
  }

  /** `Operation::doc_returns`: the result, or each component of a result tuple. */
  function DocReturns(op: Operation): string {
    if |op.output| == 1 then
      "/// returns `" + StructType(op.output[0].paramType) + "` - " + op.output[0].description
    else if |op.output| > 1 then
      "/// Tuple (\n" + Join(ComponentDocs(op), "\n") + "\n///)"
    else ""
  }

  /** `Operation::doc`. */
  function Doc(op: Operation, withOptional: bool, env: Env): string {
    if |op.optional| > 0 && withOptional then
      DocBase(op, env) + "\n" + DocOptional(op, env) + "\n" + DocReturns(op)
    else DocBase(op, env) + "\n" + DocReturns(op)
  }

  /** The initialisers of the options fields, or the failure of the first that
      has none. */
  function FieldDefaults(ps: seq<Parameter>, env: Env): (r: Result<seq<string>>)
    ensures r.Ok? <==> forall i :: 0 <= i < |ps| ==> FieldDefault(ps[i], env).Ok?
    ensures r.Ok? ==> |r.value| == |ps| && forall i :: 0 <= i < |ps| ==> r.value[i] == FieldDefault(ps[i], env).value
    ensures r.Err? ==> exists i ::
      0 <= i < |ps| && FieldDefault(ps[i], env) == Err(r.error) && forall j :: 0 <= j < i ==> FieldDefault(ps[j], env).Ok?
    decreases |ps|
  {
    if |ps| == 0 then Ok([])
    else
      match FieldDefault(ps[0], env)
      case Err(e) => Err(e)
      case Ok(d) =>
        var rest := FieldDefaults(ps[1..], env);
        if rest.Err? then
          assert forall i :: 0 <= i < |ps| - 1 ==> ps[1..][i] == ps[i + 1];
          Err(rest.error)
        else Ok([d] + rest.value)
  }

  /** The class-case name of the operation, which names its options record and its
      error variant. */
  function ClassName(op: Operation, env: Env): string {
    env.classCase(op.name)
  }

  /** The fields of the options record, each after its documentation. */
  function FieldDeclarations(op: Operation, env: Env): (r: seq<string>)
    ensures |r| == |op.optional|
    ensures forall i :: 0 <= i < |r| ==> r[i] == FieldDoc(op.optional[i], env) + "\n" + ("pub " + StructDeclaration(op.optional[i]))
  {
    MapParams(op.optional, (p: Parameter) => FieldDoc(p, env) + "\n" + ("pub " + StructDeclaration(p)))
  }

  /** The template of the options record, given the initialisers of its fields. */
  function RecordParts(op: Operation, defaults: seq<string>, env: Env): seq<string> {
    var c := ClassName(op, env);
    [ Indent(12) + "/// Options for " + op.name + " operation" + Indent(12) + "#[derive(Clone, Debug)]" + Indent(12),
      "pub struct " + c + "Options {",
      Indent(16),
      Join(FieldDeclarations(op, env), ",\n"),
      Indent(12) + "}" + "\n"
      + Indent(12) + "impl std::default::Default for " + c + "Options {"
      + Indent(16) + "fn default() -> Self {"
      + Indent(20) + c + "Options {"
      + Indent(24),
      Join(defaults, ",\n"),
      Indent(20) + "}" + Indent(16) + "}" + Indent(12) + "}" + Indent(12)]
  }

  /** `Operation::struct_options`: the options record and its `Default` impl. */
  function StructOptions(op: Operation, env: Env): Result<string> {
    match FieldDefaults(op.optional, env)
    case Err(e) => Err(e)
    case Ok(defaults) =>
      Ok(Concat(RecordParts(op, defaults, env)))
  }

  /** The native variable of an optional input and the C string of its name. */
  function OptionalDeclaration(p: Parameter, optName: string): string {
    Indent(12) + DeclareInOptional(p, optName) + Indent(12) + DeclareOptName(p)
  }

  /** The declarations of the native variables of the optional inputs. */
  function OptionalDeclarations(op: Operation, env: Env): (r: seq<string>)
    ensures |r| == |op.optional|
    ensures forall i :: 0 <= i < |r| ==>
      r[i] == OptionalDeclaration(op.optional[i], env.snakeCase(op.name))
  {
    var o := env.snakeCase(op.name);
    MapParams(op.optional, (p: Parameter) => OptionalDeclaration(p, o))
  }

  /** The declarations of the output slots. */
  function OutDeclarations(op: Operation, env: Env): (r: seq<string>)
    ensures |r| == |op.output| && forall i :: 0 <= i < |r| ==> r[i] == DeclareOut(op.output[i], env)
  {
    MapParams(op.output, (p: Parameter) => DeclareOut(p, env))
  }

  /** `Operation::get_variables`: the native variables of the inputs, the output
      slots and, for the options wrapper, the optional inputs. */
  function GetVariables(op: Operation, withOptional: bool, env: Env): string {
    Concat(VariableParts(op, withOptional, env))
  }

  /** The template of `get_variables`. */
  function VariableParts(op: Operation, withOptional: bool, env: Env): seq<string> {
    var ins := Join(MapParams(op.required, DeclareIn), "\n");
    var outs := Join(OutDeclarations(op, env), "\n");
    var opts := if withOptional then Join(OptionalDeclarations(op, env), "\n") else "";
    [Indent(8), ins, Indent(8), outs, Indent(8), opts, Indent(8)]
  }

  /** The positional arguments of the native call, ordered by `order`. */
  function PositionalArgs(op: Operation): (r: seq<string>)
    ensures |r| == |SortByOrder(op.required + op.output)|
    ensures forall i :: 0 <= i < |r| ==> r[i] == CallArgs(op.output, SortByOrder(op.required + op.output)[i])
  {
    MapParams(SortByOrder(op.required + op.output), (p: Parameter) => CallArgs(op.output, p))
  }

  /** `Operation::get_params`: the arguments of the native call before its
      terminating `NULL`. */
  function GetParams(op: Operation, withOptional: bool): string {
    var params := Join(PositionalArgs(op), ", ");
    if withOptional then params + "," + Join(MapParams(op.optional, OptParamPair), ", ") else params
  }

  /** A value or type of arity `|parts|`: `()`, the single part, or a tuple. */
  function Tuple(parts: seq<string>, sep: string): string {
    if |parts| > 1 then "(" + Join(parts, sep) + ")"
    else if |parts| == 0 then "()"
    else Join(parts, sep)
  }

  /** The `out_result` of `Operation::method_body`: what the wrapper returns. */
  function OutResult(op: Operation): string {
    Tuple(MapParams(op.output, AsOutParam), ",")
  }

  /** `Operation::method_body`. */
  function MethodBody(op: Operation, withOptional: bool, env: Env): string {
    Concat([
      Indent(8) + "unsafe {" + Indent(12),
      GetVariables(op, withOptional, env),
      Indent(12) + "let vips_op_response = bindings::vips_" + op.vipsName + "(",
      GetParams(op, withOptional),
      ", NULL);" + Indent(12) + "utils::result(vips_op_response, ",
      OutResult(op),
      ", Error::" + ClassName(op, env) + "Error)" + Indent(8) + "}" + Indent(8)])
  }

  /** The last parameter of the options wrapper. */
  function OptionsParam(op: Operation, env: Env): string {
    env.snakeCase(op.name) + "_options: &" + ClassName(op, env) + "Options"
  }

  /** The parameter list of a wrapper. */
  function ParamList(op: Operation, withOptional: bool, env: Env): string {
    var params := Join(MapParams(op.required, ParamDeclaration), ", ");
    if withOptional then
      if params == "" then OptionsParam(op, env) else params + ", " + OptionsParam(op, env)
    else params
  }

  /** The Rust type of each output. */
  function ResultTypes(op: Operation): (r: seq<string>)
    ensures |r| == |op.output| && forall i :: 0 <= i < |r| ==> r[i] == StructType(op.output[i].paramType)
  {
    MapParams(op.output, (p: Parameter) => StructType(p.paramType))
  }

  /** The `return_type` of `Operation::declaration`. */
  function ReturnType(op: Operation): string {
    if |op.output| == 0 then "()"
    else if |op.output| == 1 then StructType(op.output[0].paramType)
    else "(" + Join(ResultTypes(op), ", ") + ")"
  }

  /** The name of a wrapper. */
  function FunctionName(op: Operation, withOptional: bool): string {
    if withOptional then op.name + "_with_opts" else op.name
  }

  /** `Operation::declaration`: the signature of a wrapper. */
  function Declaration(op: Operation, withOptional: bool, env: Env): string {
    "pub fn " + FunctionName(op, withOptional) + "(" + ParamList(op, withOptional, env) + ") -> Result<" + ReturnType(op) + ">"
  }

  /** The texts that are not empty, in order (`.filter(|s| !s.is_empty())`). */
  function NonEmpty(texts: seq<string>): (r: seq<string>)
    ensures forall i :: 0 <= i < |r| ==> r[i] != ""
    decreases |texts|
  {
    if |texts| == 0 then []
    else (if texts[0] == "" then [] else [texts[0]]) + NonEmpty(texts[1..])
  }

  /** The declaration of each parameter's kind, empty for the kinds that are not
      enumerations. */
  function KindDeclarations(ps: seq<Parameter>, env: Env): (r: seq<string>)
    ensures |r| == |ps| && forall i :: 0 <= i < |r| ==> r[i] == EnumerationText(ps[i].paramType, env)
  {
    MapParams(ps, (p: Parameter) => EnumerationText(p.paramType, env))
  }

  /** `Operation::enumeration`: the `enum` declarations of the parameters'
      kinds, the required, then the optional, then the output ones. */
  function OperationEnumerations(op: Operation, env: Env): seq<string> {
    NonEmpty(KindDeclarations(op.required + op.optional + op.output, env))
  }

  /** One wrapper: documentation, signature and body. */
  function Wrapper(op: Operation, withOptional: bool, env: Env): string {
    Concat([
      Indent(8), Doc(op, withOptional, env),
      Indent(8), Declaration(op, withOptional, env),
      " {" + Indent(12), MethodBody(op, withOptional, env),
      Indent(8) + "}" + Indent(8)])
  }

  /** `Operation::body`: the wrapper and, when the operation has optional
      arguments, the options record and the options wrapper. */
  function Body(op: Operation, env: Env): Result<string> {
    if |op.optional| > 0 then
      match StructOptions(op, env)
      case Err(e) => Err(e)
      case Ok(record) => Ok(Concat([Wrapper(op, false, env), Indent(8), record, Wrapper(op, true, env)]))
    else Ok(Wrapper(op, false, env))
  }

  // ---------------------------------------------------------------------------
  // The order of the positional arguments

  predicate OrdersAscending(ps: seq<Parameter>) {
    forall i, j :: 0 <= i < j < |ps| ==> ps[i].order <= ps[j].order
  }

  predicate OrdersIncreasing(ps: seq<Parameter>) {
    forall i, j :: 0 <= i < j < |ps| ==> ps[i].order < ps[j].order
  }

  predicate OrdersDistinct(ps: seq<Parameter>) {
    forall i, j :: 0 <= i < j < |ps| ==> ps[i].order != ps[j].order
  }

  /** The parameters of order `k` and above, in their original order. */
  function Above(ps: seq<Parameter>, k: int): seq<Parameter> {
    if |ps| == 0 then []
    else (if ps[0].order >= k then [ps[0]] else []) + Above(ps[1..], k)
  }

  lemma {:induction false} WithOrderAppend(a: seq<Parameter>, b: seq<Parameter>, k: int)
    ensures WithOrder(a + b, k) == WithOrder(a, k) + WithOrder(b, k)
    decreases |a|
  {
    if |a| == 0 {
      assert a + b == b;
    } else {
      assert (a + b)[1..] == a[1..] + b;
      WithOrderAppend(a[1..], b, k);
    }
  }

  lemma {:induction false} WithOrderTwice(ps: seq<Parameter>, j: int, k: int)
    ensures WithOrder(WithOrder(ps, j), k) == if j == k then WithOrder(ps, k) else []
    decreases |ps|
  {
    if |ps| > 0 {
      var head := if ps[0].order == j then [ps[0]] else [];
      WithOrderAppend(head, WithOrder(ps[1..], j), k);
      WithOrderTwice(ps[1..], j, k);
      if ps[0].order == j {
        assert [ps[0]][1..] == [];
      }
    }
  }

  /** No parameter of a `u8` order lies outside 0..255. */
  lemma {:induction false} WithOrderOutside(ps: seq<Parameter>, k: int)
    requires k < 0 || k >= 256
    ensures WithOrder(ps, k) == []
    decreases |ps|
  {
    if |ps| > 0 {
      WithOrderOutside(ps[1..], k);
    }
  }

  lemma {:induction false} SortFromWithOrder(ps: seq<Parameter>, j: nat, k: int)
    ensures WithOrder(SortFrom(ps, j), k) == if j <= k then WithOrder(ps, k) else []
    decreases 256 - j
  {
    if j >= 256 {
      if j <= k {
        WithOrderOutside(ps, k);
      }
    } else {
      WithOrderAppend(WithOrder(ps, j), SortFrom(ps, j + 1), k);
      WithOrderTwice(ps, j, k);
      SortFromWithOrder(ps, j + 1, k);
    }
  }

  /** `sort_by_key` is stable: the parameters of each order keep their relative
      order. */
  lemma SortByOrderStable(ps: seq<Parameter>, k: int)
    ensures WithOrder(SortByOrder(ps), k) == WithOrder(ps, k)
  {
    SortFromWithOrder(ps, 0, k);
    if k < 0 {
      WithOrderOutside(ps, k);
    }
  }

  lemma {:induction false} AboveSplit(ps: seq<Parameter>, k: int)
    ensures multiset(Above(ps, k)) == multiset(WithOrder(ps, k)) + multiset(Above(ps, k + 1))
    decreases |ps|
  {
    if |ps| > 0 {
      AboveSplit(ps[1..], k);
    }
  }

  lemma {:induction false} AboveAll(ps: seq<Parameter>, k: int)
    ensures k <= 0 ==> Above(ps, k) == ps
    ensures k >= 256 ==> Above(ps, k) == []
    decreases |ps|
  {
    if |ps| > 0 {
      AboveAll(ps[1..], k);
      if k <= 0 {
        assert [ps[0]] + ps[1..] == ps;
      }
    }
  }

  lemma {:induction false} SortFromPermutes(ps: seq<Parameter>, k: nat)
    ensures multiset(SortFrom(ps, k)) == multiset(Above(ps, k))
    decreases 256 - k
  {
    if k >= 256 {
      AboveAll(ps, k);
    } else {
      SortFromPermutes(ps, k + 1);
      AboveSplit(ps, k);
    }
  }

  /** `sort_by_key` only reorders. */
  lemma SortByOrderPermutes(ps: seq<Parameter>)
    ensures multiset(SortByOrder(ps)) == multiset(ps)
    ensures forall p :: p in ps <==> p in SortByOrder(ps)
  {
    SortFromPermutes(ps, 0);
    AboveAll(ps, 0);
    assert forall p :: p in ps <==> p in multiset(ps);
    assert forall p :: p in SortByOrder(ps) <==> p in multiset(SortByOrder(ps));
  }

  lemma {:induction false} SortFromAscending(ps: seq<Parameter>, k: nat)
    ensures OrdersAscending(SortFrom(ps, k))
    ensures forall i :: 0 <= i < |SortFrom(ps, k)| ==> SortFrom(ps, k)[i].order >= k
    decreases 256 - k
  {
    if k < 256 {
      SortFromAscending(ps, k + 1);
      var a: seq<Parameter>, b: seq<Parameter> := WithOrder(ps, k), SortFrom(ps, k + 1);
      assert SortFrom(ps, k) == a + b;
      forall i, j | 0 <= i < j < |a + b| ensures (a + b)[i].order <= (a + b)[j].order {
        if j < |a| {
          assert (a + b)[i] == a[i] && (a + b)[j] == a[j];
        } else if i < |a| {
          assert (a + b)[i] == a[i] && (a + b)[j] == b[j - |a|];
        } else {
          assert (a + b)[i] == b[i - |a|] && (a + b)[j] == b[j - |a|];
        }
      }
    }
  }

  /** After `sort_by_key`, the orders run upwards. */
  lemma SortByOrderAscending(ps: seq<Parameter>)
    ensures OrdersAscending(SortByOrder(ps))
  {
    SortFromAscending(ps, 0);
  }

  lemma {:induction false} WithOrderAbsent(ps: seq<Parameter>, k: int)
    requires forall i :: 0 <= i < |ps| ==> ps[i].order != k
    ensures WithOrder(ps, k) == []
    decreases |ps|
  {
    if |ps| > 0 {
      WithOrderAbsent(ps[1..], k);
    }
  }

  lemma {:induction false} WithOrderAtMostOne(ps: seq<Parameter>, k: int)
    requires OrdersDistinct(ps)
    ensures |WithOrder(ps, k)| <= 1
    decreases |ps|
  {
    if |ps| > 0 {
      if ps[0].order == k {
        WithOrderAbsent(ps[1..], k);
      } else {
        WithOrderAtMostOne(ps[1..], k);
      }
    }
  }

  lemma {:induction false} SortFromIncreasing(ps: seq<Parameter>, k: nat)
    requires OrdersDistinct(ps)
    ensures OrdersIncreasing(SortFrom(ps, k))
    decreases 256 - k
  {
    if k < 256 {
      SortFromIncreasing(ps, k + 1);
      SortFromAscending(ps, k + 1);
      WithOrderAtMostOne(ps, k);
      var a: seq<Parameter>, b: seq<Parameter> := WithOrder(ps, k), SortFrom(ps, k + 1);
      assert SortFrom(ps, k) == a + b;
      forall i, j | 0 <= i < j < |a + b| ensures (a + b)[i].order < (a + b)[j].order {
        if i < |a| {
          assert (a + b)[i] == a[i] && (a + b)[j] == b[j - |a|];
        } else {
          assert (a + b)[i] == b[i - |a|] && (a + b)[j] == b[j - |a|];
        }
      }
    }
  }

  /** When no two parameters share an order, the sorted orders strictly increase. */
  lemma SortByOrderIncreasing(ps: seq<Parameter>)
    requires OrdersDistinct(ps)
    ensures OrdersIncreasing(SortByOrder(ps))
  {
    SortFromIncreasing(ps, 0);
  }

  // ---------------------------------------------------------------------------
  // Defaults of the options fields and the failure of `body`

  /** An enumeration kind whose declared default is the value of none of its
      entries: the kind for which `ParamType::default` panics. */
  predicate LacksDefault(t: ParamType) {
    t.Enum? && forall j :: 0 <= j < |t.entries| ==> t.entries[j].value != t.edefault
  }

  /** An options field is initialised by name; the initialiser is missing exactly
      for an enumeration without its default among its entries, and a string that
      mentions `ICC` starts as `sRGB`. */
  lemma FieldDefaultCases(p: Parameter, env: Env)
    ensures FieldDefault(p, env).Err? <==> LacksDefault(p.paramType)
    ensures FieldDefault(p, env).Err? ==> FieldDefault(p, env).error == NoEnumDefault(p.paramType.enumName)
    ensures FieldDefault(p, env).Ok? ==> StartsWith(FieldDefault(p, env).value, p.name + ": ")
    ensures p.paramType.Str? && Contains(p.description, "ICC") ==>
      FieldDefault(p, env) == Ok(p.name + ": String::from(\"sRGB\")")
  {
    if p.paramType.Enum? {
      EnumDefault(p.paramType, env);
    }
    if FieldDefault(p, env).Ok? {
      var v := FieldDefault(p, env).value;
      assert v[..|p.name + ": "|] == p.name + ": ";
    }
  }

  /** The text of an operation fails exactly when one of its optional arguments is
      an enumeration without its default among its entries, and then with that
      enumeration's name; the positional arguments and the outputs never make it
      fail. */
  lemma BodyFails(op: Operation, env: Env)
    ensures Body(op, env).Err? <==> exists i :: 0 <= i < |op.optional| && LacksDefault(op.optional[i].paramType)
    ensures Body(op, env).Err? ==>
      exists i :: 0 <= i < |op.optional| && LacksDefault(op.optional[i].paramType) &&
        Body(op, env).error == NoEnumDefault(op.optional[i].paramType.enumName)
  {
    forall i | 0 <= i < |op.optional|
      ensures FieldDefault(op.optional[i], env).Err? <==> LacksDefault(op.optional[i].paramType)
      ensures FieldDefault(op.optional[i], env).Err? ==>
        FieldDefault(op.optional[i], env).error == NoEnumDefault(op.optional[i].paramType.enumName)
    {
      FieldDefaultCases(op.optional[i], env);
    }
  }

  // ---------------------------------------------------------------------------
  // What the text of an operation declares

  lemma WrapperDeclares(op: Operation, withOptional: bool, env: Env)
    ensures Infix(Declaration(op, withOptional, env), Wrapper(op, withOptional, env))
    ensures Infix(MethodBody(op, withOptional, env), Wrapper(op, withOptional, env))
  {
    var parts := [
      Indent(8), Doc(op, withOptional, env),
      Indent(8), Declaration(op, withOptional, env),
      " {" + Indent(12), MethodBody(op, withOptional, env),
      Indent(8) + "}" + Indent(8)];
    InfixConcat(parts, 3);
    InfixConcat(parts, 5);
  }

  /** The text of an operation declares the plain wrapper; with optional arguments
      it also declares the options record and the options wrapper, under a second
      name. Without optional arguments it is the plain wrapper alone. */
  lemma BodyDeclares(op: Operation, env: Env)
    ensures |op.optional| == 0 ==> Body(op, env) == Ok(Wrapper(op, false, env))
    ensures Body(op, env).Ok? ==> Contains(Body(op, env).value, Declaration(op, false, env))
    ensures |op.optional| > 0 && Body(op, env).Ok? ==>
      Contains(Body(op, env).value, Declaration(op, true, env)) &&
      Contains(Body(op, env).value, "pub struct " + ClassName(op, env) + "Options {")
    ensures FunctionName(op, true) != FunctionName(op, false)
  {
    WrapperDeclares(op, false, env);
    if |op.optional| == 0 {
      InfixContains(Declaration(op, false, env), Wrapper(op, false, env));
    } else if Body(op, env).Ok? {
      var record := StructOptions(op, env).value;
      var parts := [Wrapper(op, false, env), Indent(8), record, Wrapper(op, true, env)];
      var body := Body(op, env).value;
      assert body == Concat(parts);
      InfixConcat(parts, 0);
      InfixTrans(Declaration(op, false, env), parts[0], body);
      InfixContains(Declaration(op, false, env), body);
      WrapperDeclares(op, true, env);
      InfixConcat(parts, 3);
      InfixTrans(Declaration(op, true, env), parts[3], body);
      InfixContains(Declaration(op, true, env), body);
      StructOptionsDeclares(op, env);
      InfixConcat(parts, 2);
      InfixTrans("pub struct " + ClassName(op, env) + "Options {", record, body);
      InfixContains("pub struct " + ClassName(op, env) + "Options {", body);
    }
    assert |FunctionName(op, true)| != |FunctionName(op, false)|;
  }

  /** The options record has one public field per optional argument, each
      initialised in its `Default`. */
  lemma StructOptionsDeclares(op: Operation, env: Env)
    requires StructOptions(op, env).Ok?
    ensures Infix("pub struct " + ClassName(op, env) + "Options {", StructOptions(op, env).value)
    ensures forall i :: 0 <= i < |op.optional| ==>
      Contains(StructOptions(op, env).value, "pub " + StructDeclaration(op.optional[i])) &&
      Contains(StructOptions(op, env).value, FieldDefault(op.optional[i], env).value)
  {
    var defaults := FieldDefaults(op.optional, env).value;
    var parts := RecordParts(op, defaults, env);
    InfixConcat(parts, 1);
    forall i | 0 <= i < |op.optional|
      ensures Contains(Concat(parts), "pub " + StructDeclaration(op.optional[i]))
      ensures Contains(Concat(parts), FieldDefault(op.optional[i], env).value)
    {
      RecordField(op, defaults, env, i);
      FieldDefaultCases(op.optional[i], env);
      InfixJoin(defaults, ",\n", i);
      InfixConcat(parts, 5);
      InfixTrans(defaults[i], parts[5], Concat(parts));
      InfixContains(defaults[i], Concat(parts));
    }
  }

  lemma RecordField(op: Operation, defaults: seq<string>, env: Env, i: nat)
    requires i < |op.optional|
    ensures Contains(Concat(RecordParts(op, defaults, env)), "pub " + StructDeclaration(op.optional[i]))
  {
    var parts := RecordParts(op, defaults, env);
    var p := op.optional[i];
    var field := "pub " + StructDeclaration(p);
    InfixEnd(FieldDoc(p, env) + "\n", field);
    InfixJoin(FieldDeclarations(op, env), ",\n", i);
    InfixConcat(parts, 3);
    InfixTrans(field, FieldDeclarations(op, env)[i], parts[3]);
    InfixTrans(field, parts[3], Concat(parts));
    InfixContains(field, Concat(parts));
  }

  // ---------------------------------------------------------------------------
  // The native variables and the call

  lemma InArgsName(p: Parameter)
    ensures Infix(p.name + "_in", InArgs(p))
  {
    var x := p.name + "_in";
    var a := InArgs(p);
    assert a[..|x|] == x;
    InfixPrefix(x, a);
  }

  lemma OutArgsName(p: Parameter)
    ensures Infix("&mut " + p.name + "_out", OutArgs(p))
  {
    var x := "&mut " + p.name + "_out";
    var a := OutArgs(p);
    assert a[..|x|] == x;
    InfixPrefix(x, a);
  }

  lemma DeclareOutName(p: Parameter, env: Env)
    ensures Infix("let mut " + p.name + "_out: ", DeclareOut(p, env))
  {
    var n := p.name;
    var ty := VipsOutType(p.paramType);
    var x := "let mut " + n + "_out: ";
    match p.paramType
    case ArrayByte =>
      LetOutName(n, ty, "null_mut()");
      InfixAfter(x, "let mut " + n + "_buf_size: u64 = 0;\n", LetOut(n, ty, "null_mut()"));
    case ArrayDouble =>
      LetOutName(n, ty, "null_mut()");
      InfixAfter(x, "let mut " + n + "_array_size: usize = 0;\n", LetOut(n, ty, "null_mut()"));
    case ArrayInt =>
      LetOutName(n, ty, "null_mut()");
      InfixAfter(x, "let mut " + n + "_array_size: usize = 0;\n", LetOut(n, ty, "null_mut()"));
    case ArrayImage =>
      LetOutName(n, ty, "null_mut()");
      InfixAfter(x, "let mut " + n + "_array_size: usize = 0;\n", LetOut(n, ty, "null_mut()"));
    case Int(_, _, _) => LetOutName(n, ty, Default(p.paramType, env).value);
    case Double(_, _, _) => LetOutName(n, ty, Default(p.paramType, env).value);
    case UInt(_, _, _) => LetOutName(n, ty, Default(p.paramType, env).value);
    case Bool(_) => LetOutName(n, ty, "0");
    case _ => LetOutName(n, ty, "null_mut()");
  }

  lemma LetOutName(n: string, ty: string, value: string)
    ensures Infix("let mut " + n + "_out: ", LetOut(n, ty, value))
  {
    var x := "let mut " + n + "_out: ";
    assert LetOut(n, ty, value) == x + (ty + " = " + value + ";");
    InfixStart(x, ty + " = " + value + ";");
  }

  lemma InfixAfter(x: string, before: string, s: string)
    requires Infix(x, s)
    ensures Infix(x, before + s)
  {
    InfixEnd(before, s);
    InfixTrans(x, s, before + s);
  }

  lemma AsOutParamName(p: Parameter)
    ensures Infix(p.name + "_out", AsOutParam(p))
  {
    var x := p.name + "_out";
    var n := p.name;
    match p.paramType
    case ArrayByte => InfixOf("utils::new_byte_array(", x, ", " + n + "_buf_size)");
    case ArrayInt => InfixOf("utils::new_int_array(", x, ", " + n + "_array_size)");
    case ArrayDouble => InfixOf("utils::new_double_array(", x, ", " + n + "_array_size)");
    case VipsImage(_) => InfixOf("VipsImage{ ctx: ", x, " }");
    case VipsInterpolate => InfixOf("VipsInterpolate{ ctx: ", x, " }");
    case VipsBlob => InfixOf("VipsBlob{ ctx: ", x, " }.into()");
    case Bool(_) => InfixStart(x, " != 0");
    case Str => InfixEnd("*", x);
    case Enum(_, _, _) => InfixEnd("*", x);
    case ArrayImage => InfixEnd("*", x);
    case Int(_, _, _) => InfixPrefix(x, x);
    case UInt(_, _, _) => InfixPrefix(x, x);
    case Double(_, _, _) => InfixPrefix(x, x);
  }

  /** Every positional parameter, input or output, is passed to the native call. */
  lemma CallPassesPositional(op: Operation, withOptional: bool, k: nat)
    requires k < |op.required + op.output|
    ensures Infix(CallArgs(op.output, (op.required + op.output)[k]), GetParams(op, withOptional))
  {
    var all := op.required + op.output;
    var p := all[k];
    SortByOrderPermutes(all);
    assert p in SortByOrder(all);
    var j :| 0 <= j < |SortByOrder(all)| && SortByOrder(all)[j] == p;
    var params := Join(PositionalArgs(op), ", ");
    InfixJoin(PositionalArgs(op), ", ", j);
    if withOptional {
      InfixExtend(CallArgs(op.output, p), params, "", "," + Join(MapParams(op.optional, OptParamPair), ", "));
      assert params + ("," + Join(MapParams(op.optional, OptParamPair), ", ")) == GetParams(op, withOptional);
    }
  }

  /** A positional input is converted to its native variable `<name>_in`, which
      the call then uses. */
  lemma InputVariable(op: Operation, withOptional: bool, env: Env, i: nat)
    requires i < |op.required| && !ContainsParameter(op.output, op.required[i])
    ensures Contains(GetVariables(op, withOptional, env), "let " + op.required[i].name + "_in: ")
    ensures Contains(GetParams(op, withOptional), op.required[i].name + "_in")
  {
    InputDeclared(op, withOptional, env, i);
    InputPassed(op, withOptional, i);
  }

  lemma InputDeclared(op: Operation, withOptional: bool, env: Env, i: nat)
    requires i < |op.required|
    ensures Contains(GetVariables(op, withOptional, env), "let " + op.required[i].name + "_in: ")
  {
    var p := op.required[i];
    var x := "let " + p.name + "_in: ";
    var parts := VariableParts(op, withOptional, env);
    DeclareInName(p);
    InfixJoin(MapParams(op.required, DeclareIn), "\n", i);
    InfixTrans(x, DeclareIn(p), parts[1]);
    InfixConcat(parts, 1);
    InfixTrans(x, parts[1], GetVariables(op, withOptional, env));
    InfixContains(x, GetVariables(op, withOptional, env));
  }

  lemma DeclareInName(p: Parameter)
    ensures Infix("let " + p.name + "_in: ", DeclareIn(p))
  {
    var x := "let " + p.name + "_in: ";
    assert DeclareIn(p) == x + (VipsInType(p.paramType, false) + " = " + InValue(p) + ";");
    InfixStart(x, VipsInType(p.paramType, false) + " = " + InValue(p) + ";");
  }

  lemma InputPassed(op: Operation, withOptional: bool, i: nat)
    requires i < |op.required| && !ContainsParameter(op.output, op.required[i])
    ensures Contains(GetParams(op, withOptional), op.required[i].name + "_in")
  {
    var p := op.required[i];
    assert (op.required + op.output)[i] == p;
    CallPassesPositional(op, withOptional, i);
    InArgsName(p);
    InfixTrans(p.name + "_in", InArgs(p), GetParams(op, withOptional));
    InfixContains(p.name + "_in", GetParams(op, withOptional));
  }

  /** The output test of the call compares names only: a positional input that
      shares its name with an output is passed through the slot `&mut <name>_out`
      rather than as `<name>_in`. */
  lemma SharedNameAsOutput(op: Operation, withOptional: bool, i: nat)
    requires i < |op.required| && ContainsParameter(op.output, op.required[i])
    ensures Contains(GetParams(op, withOptional), "&mut " + op.required[i].name + "_out")
  {
    var p := op.required[i];
    assert (op.required + op.output)[i] == p;
    CallPassesPositional(op, withOptional, i);
    OutArgsName(p);
    InfixTrans("&mut " + p.name + "_out", OutArgs(p), GetParams(op, withOptional));
    InfixContains("&mut " + p.name + "_out", GetParams(op, withOptional));
  }

  /** Each output has a slot `<name>_out`, declared mutable, passed to the call by
      mutable reference and read back into the result. */
  lemma OutputVariable(op: Operation, withOptional: bool, env: Env, i: nat)
    requires i < |op.output|
    ensures Contains(GetVariables(op, withOptional, env), "let mut " + op.output[i].name + "_out: ")
    ensures Contains(GetParams(op, withOptional), "&mut " + op.output[i].name + "_out")
    ensures Contains(OutResult(op), op.output[i].name + "_out")
  {
    OutputDeclared(op, withOptional, env, i);
    OutputPassed(op, withOptional, i);
    OutputReturned(op, i);
  }

  lemma OutputDeclared(op: Operation, withOptional: bool, env: Env, i: nat)
    requires i < |op.output|
    ensures Contains(GetVariables(op, withOptional, env), "let mut " + op.output[i].name + "_out: ")
  {
    var p := op.output[i];
    var x := "let mut " + p.name + "_out: ";
    var parts := VariableParts(op, withOptional, env);
    DeclareOutName(p, env);
    InfixJoin(OutDeclarations(op, env), "\n", i);
    InfixTrans(x, DeclareOut(p, env), parts[3]);
    InfixConcat(parts, 3);
    InfixTrans(x, parts[3], GetVariables(op, withOptional, env));
    InfixContains(x, GetVariables(op, withOptional, env));
  }

  lemma OutputPassed(op: Operation, withOptional: bool, i: nat)
    requires i < |op.output|
    ensures Contains(GetParams(op, withOptional), "&mut " + op.output[i].name + "_out")
  {
    var p := op.output[i];
    var k := |op.required| + i;
    assert (op.required + op.output)[k] == p;
    assert SameParameter(op.output[i], p);
    CallPassesPositional(op, withOptional, k);
    OutArgsName(p);
    InfixTrans("&mut " + p.name + "_out", OutArgs(p), GetParams(op, withOptional));
    InfixContains("&mut " + p.name + "_out", GetParams(op, withOptional));
  }

  lemma OutputReturned(op: Operation, i: nat)
    requires i < |op.output|
    ensures Contains(OutResult(op), op.output[i].name + "_out")
  {
    var p := op.output[i];
    var results := MapParams(op.output, AsOutParam);
    AsOutParamName(p);
    InfixJoin(results, ",", i);
    InfixTrans(p.name + "_out", AsOutParam(p), Join(results, ","));
    if |op.output| > 1 {
      InfixWithin(p.name + "_out", "(", Join(results, ","), ")");
    }
    InfixContains(p.name + "_out", OutResult(op));
  }

  lemma OptionalDeclarationHolds(p: Parameter, optName: string)
    ensures Infix(DeclareInOptional(p, optName), OptionalDeclaration(p, optName))
    ensures Infix(DeclareOptName(p), OptionalDeclaration(p, optName))
    ensures |DeclareInOptional(p, optName)| > 0
  {
    var d := DeclareInOptional(p, optName);
    InfixOf(Indent(12), d, Indent(12) + DeclareOptName(p));
    assert OptionalDeclaration(p, optName) == Indent(12) + d + (Indent(12) + DeclareOptName(p));
    InfixEnd(Indent(12) + d + Indent(12), DeclareOptName(p));
  }

  /** The options wrapper declares each optional argument's native variable and
      the C string of its libvips name. */
  lemma OptionalDeclared(op: Operation, env: Env, i: nat)
    requires i < |op.optional|
    ensures Infix(DeclareInOptional(op.optional[i], env.snakeCase(op.name)), GetVariables(op, true, env))
    ensures Infix(DeclareOptName(op.optional[i]), GetVariables(op, true, env))
  {
    var p := op.optional[i];
    var o := env.snakeCase(op.name);
    var d := DeclareInOptional(p, o);
    var parts := VariableParts(op, true, env);
    var line := OptionalDeclarations(op, env)[i];
    OptionalDeclarationHolds(p, o);
    InfixJoin(OptionalDeclarations(op, env), "\n", i);
    InfixConcat(parts, 5);
    var vars := GetVariables(op, true, env);
    InfixTrans(line, parts[5], vars);
    InfixTrans(d, line, vars);
    InfixTrans(DeclareOptName(p), line, vars);
  }

  /** The options wrapper passes each optional argument to the call as the pair of
      its name and its value. */
  lemma OptionalPassed(op: Operation, i: nat)
    requires i < |op.optional|
    ensures Contains(GetParams(op, true), OptParamPair(op.optional[i]))
  {
    var p := op.optional[i];
    var pairs := Join(MapParams(op.optional, OptParamPair), ", ");
    InfixJoin(MapParams(op.optional, OptParamPair), ", ", i);
    InfixEnd(Join(PositionalArgs(op), ", ") + ",", pairs);
    InfixTrans(OptParamPair(p), pairs, GetParams(op, true));
    InfixContains(OptParamPair(p), GetParams(op, true));
  }

  // ---------------------------------------------------------------------------
  // Signatures read back

  /** The parameter list of a wrapper, split at `, `, is the declaration of each
      positional argument in order, then, for the options wrapper, the options
      parameter; the plain wrapper of an operation without positional arguments
      takes none. */
  lemma ParamListReadBack(op: Operation, withOptional: bool, env: Env)
    requires forall i :: 0 <= i < |op.required| ==> ',' !in ParamDeclaration(op.required[i])
    requires withOptional ==> ',' !in OptionsParam(op, env)
    ensures !withOptional && |op.required| == 0 ==> ParamList(op, withOptional, env) == ""
    ensures withOptional || |op.required| > 0 ==>
      Split(ParamList(op, withOptional, env), ", ") ==
        MapParams(op.required, ParamDeclaration) + (if withOptional then [OptionsParam(op, env)] else [])
  {
    var decls := MapParams(op.required, ParamDeclaration);
    var parts := decls + (if withOptional then [OptionsParam(op, env)] else []);
    if |decls| > 0 {
      assert |decls[0]| > 0;
      JoinNonEmpty(decls, ", ");
      if withOptional {
        JoinSnoc(decls, OptionsParam(op, env), ", ");
      } else {
        assert parts == decls;
      }
    } else if withOptional {
      assert parts == [OptionsParam(op, env)];
    }
    if |parts| > 0 {
      assert forall i :: 0 <= i < |parts| ==> ", "[0] !in parts[i];
      SplitJoin(parts, ", ");
    }
  }

  /** A text that opens and closes a tuple. */
  predicate Parenthesised(s: string) {
    |s| > 2 && s[0] == '(' && s[|s| - 1] == ')'
  }

  /** Reads a type of arity zero, one or more back into its components. */
  function UnTuple(s: string, sep: string): seq<string>
    requires |sep| > 0
  {
    if s == "()" then []
    else if Parenthesised(s) then Split(s[1..|s| - 1], sep)
    else [s]
  }

  /** The declared result type, read back, is the type of each output in order. */
  lemma ReturnTypeReadBack(op: Operation)
    requires forall i :: 0 <= i < |op.output| ==>
      ',' !in StructType(op.output[i].paramType) && '(' !in StructType(op.output[i].paramType)
    ensures UnTuple(ReturnType(op), ", ") == ResultTypes(op)
  {
    var types := ResultTypes(op);
    if |op.output| == 1 {
      var t := StructType(op.output[0].paramType);
      assert !Parenthesised(t) by {
        if |t| > 0 { assert t[0] in t; }
      }
    } else if |op.output| > 1 {
      var inner := Join(types, ", ");
      var s := "(" + inner + ")";
      assert s[1..|s| - 1] == inner;
      assert forall i :: 0 <= i < |types| ==> ", "[0] !in types[i];
      SplitJoin(types, ", ");
    }
  }

  lemma AsOutParamShape(p: Parameter)
    requires '(' !in p.name
    ensures AsOutParam(p) != "()" && !Parenthesised(AsOutParam(p))
  {
    var a := AsOutParam(p);
    assert |a| > 2;
    if |p.name| > 0 {
      assert p.name[0] in p.name;
    }
    assert a[0] != '(';
  }

  /** The value a wrapper returns has the arity of its declared result type: both
      are `()` without outputs, both are tuples with several. */
  lemma ResultMatchesReturnType(op: Operation)
    requires forall i :: 0 <= i < |op.output| ==>
      ',' !in StructType(op.output[i].paramType) && '(' !in StructType(op.output[i].paramType) &&
      '(' !in op.output[i].name
    ensures OutResult(op) == "()" <==> ReturnType(op) == "()"
    ensures Parenthesised(OutResult(op)) <==> Parenthesised(ReturnType(op))
    ensures |UnTuple(ReturnType(op), ", ")| == |op.output|
  {
    ReturnTypeReadBack(op);
    if |op.output| == 1 {
      AsOutParamShape(op.output[0]);
      assert OutResult(op) == AsOutParam(op.output[0]);
    } else if |op.output| > 1 {
      var r := "(" + Join(MapParams(op.output, AsOutParam), ",") + ")";
      assert OutResult(op) == r && r[0] == '(' && r[|r| - 1] == ')';
      var t := "(" + Join(ResultTypes(op), ", ") + ")";
      assert ReturnType(op) == t && t[0] == '(' && t[|t| - 1] == ')';
      assert Join(ResultTypes(op), ", ") == ResultTypes(op)[0] + ", " + Join(ResultTypes(op)[1..], ", ");
      assert Join(MapParams(op.output, AsOutParam), ",") ==
        MapParams(op.output, AsOutParam)[0] + "," + Join(MapParams(op.output, AsOutParam)[1..], ",");
    }
  }

  // ---------------------------------------------------------------------------
  // Enumerations

  /** The declarations of the enumeration kinds among `ps`, in order. */
  function EnumDeclarations(ps: seq<Parameter>, env: Env): seq<string>
    decreases |ps|
  {
    if |ps| == 0 then []
    else (if ps[0].paramType.Enum? then [EnumerationText(ps[0].paramType, env)] else []) + EnumDeclarations(ps[1..], env)
  }

  lemma {:induction false} NonEmptyDeclarations(ps: seq<Parameter>, env: Env)
    ensures NonEmpty(KindDeclarations(ps, env)) == EnumDeclarations(ps, env)
    decreases |ps|
  {
    if |ps| > 0 {
      var texts := KindDeclarations(ps, env);
      assert texts[1..] == KindDeclarations(ps[1..], env);
      EnumerationDeclares(ps[0].paramType, env);
      NonEmptyDeclarations(ps[1..], env);
    }
  }

  lemma {:induction false} EnumDeclarationsDeclare(ps: seq<Parameter>, env: Env)
    ensures forall i :: 0 <= i < |ps| && ps[i].paramType.Enum? ==>
      EnumerationText(ps[i].paramType, env) in EnumDeclarations(ps, env)
    ensures forall d :: d in EnumDeclarations(ps, env) ==>
      exists i :: 0 <= i < |ps| && ps[i].paramType.Enum? && d == EnumerationText(ps[i].paramType, env)
    decreases |ps|
  {
    if |ps| > 0 {
      EnumDeclarationsDeclare(ps[1..], env);
      assert forall i :: 1 <= i < |ps| ==> ps[i] == ps[1..][i - 1];
    }
  }

  lemma EnumDeclarationsName(ps: seq<Parameter>, env: Env)
    ensures forall d :: d in EnumDeclarations(ps, env) ==>
      exists t: ParamType :: t.Enum? && d == EnumerationText(t, env) && Contains(d, "pub enum " + EnumName(t.enumName) + " {")
  {
    EnumDeclarationsDeclare(ps, env);
    forall d | d in EnumDeclarations(ps, env)
      ensures exists t: ParamType :: t.Enum? && d == EnumerationText(t, env) && Contains(d, "pub enum " + EnumName(t.enumName) + " {")
    {
      var i :| 0 <= i < |ps| && ps[i].paramType.Enum? && d == EnumerationText(ps[i].paramType, env);
      EnumerationDeclares(ps[i].paramType, env);
    }
  }

  /** `Operation::enumeration` yields the declaration of exactly the enumeration
      kinds among the operation's parameters, each declaring its enumeration under
      its `enum_name`. */
  lemma OperationEnumerationsDeclare(op: Operation, env: Env)
    ensures OperationEnumerations(op, env) == EnumDeclarations(op.required + op.optional + op.output, env)
    ensures forall p :: p in op.required + op.optional + op.output && p.paramType.Enum? ==>
      EnumerationText(p.paramType, env) in OperationEnumerations(op, env)
    ensures forall d :: d in OperationEnumerations(op, env) ==>
      exists t: ParamType :: t.Enum? && d == EnumerationText(t, env) && Contains(d, "pub enum " + EnumName(t.enumName) + " {")
  {
    var all := op.required + op.optional + op.output;
    NonEmptyDeclarations(all, env);
    EnumDeclarationsDeclare(all, env);
    EnumDeclarationsName(all, env);
  }

  // ---------------------------------------------------------------------------
  // Documentation

  lemma {:induction false} TextLayout(head: string, params: string, opt: string, ret: string)
    ensures StartsWith(head + params + "\n" + opt + "\n" + ret, head)
    ensures EndsWith(head + params + "\n" + opt + "\n" + ret, ret)
    ensures Infix(opt, head + params + "\n" + opt + "\n" + ret)
    ensures StartsWith(head + params + "\n" + ret, head)
    ensures EndsWith(head + params + "\n" + ret, ret)
  {
    var s := head + params + "\n" + opt + "\n" + ret;
    assert s[..|head|] == head;
    assert s[|s| - |ret|..] == ret;
    InfixOf(head + params + "\n", opt, "\n" + ret);
    assert s == (head + params + "\n") + opt + ("\n" + ret);
    var t := head + params + "\n" + ret;
    assert t[..|head|] == head;
    assert t[|t| - |ret|..] == ret;
  }

  /** The documentation opens with the description, ends with the result's
      documentation, which is empty exactly for an operation without outputs, and
      mentions the options record in the wrapper that takes one. */
  lemma DocShape(op: Operation, withOptional: bool, env: Env)
    ensures StartsWith(Doc(op, withOptional, env), "/// " + op.description + "\n")
    ensures EndsWith(Doc(op, withOptional, env), DocReturns(op))
    ensures DocReturns(op) == "" <==> |op.output| == 0
    ensures |op.optional| > 0 && withOptional ==> Infix(DocOptional(op, env), Doc(op, withOptional, env))
  {
    TextLayout("/// " + op.description + "\n", Join(ParamDocs(op, env), "\n"), DocOptional(op, env), DocReturns(op));
    if |op.output| > 0 {
      assert DocReturns(op)[0] == '/';
    }
  }
}
