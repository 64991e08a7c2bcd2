/** `parse_param` and `parse_output`: the reading of the catalogue of operations that
    the introspection program prints. A dump is a sequence of chunks introduced by
    `OPERATION:`; a chunk holds a `nickname:TypeName` line, a summary line, the
    `REQUIRED:` arguments and the `OPTIONAL:` arguments, each argument introduced by
    a `PARAM:` line. */
module Parser {
  import opened Base
  import opened Text
  import opened Foreign
  import opened Types

  // ---------------------------------------------------------------------------
  // Line iterators

  /** `iter.by_ref().take_while(|l| *l != marker)`: the lines before the first
      `marker`, and what the iterator still holds afterwards (the marker itself is
      consumed). */
  function TakeUntil(lines: seq<string>, marker: string): (r: (seq<string>, seq<string>))
    ensures marker !in r.0
    ensures (marker in lines && lines == r.0 + [marker] + r.1) || (marker !in lines && r.0 == lines && r.1 == [])
    ensures |r.1| < |lines| || lines == []
  {
    if |lines| == 0 then ([], [])
    else if lines[0] == marker then
      assert lines == [] + [marker] + lines[1..];
      ([], lines[1..])
    else
      var (before, after) := TakeUntil(lines[1..], marker);
      assert lines == [lines[0]] + lines[1..];
      ([lines[0]] + before, after)
  }

  /** `iter.skip(1)`. */
  function SkipOne(lines: seq<string>): seq<string> {
    if |lines| == 0 then [] else lines[1..]
  }

  /** The argument blocks of a region: the lines between `PARAM:` lines, in the way
      the loops of `parse_output` take them one `take_while` at a time. A region that
      ends with `PARAM:` has no empty block after it; two `PARAM:` lines in a row
      enclose an empty block. */
  function Blocks(lines: seq<string>): seq<seq<string>>
    decreases |lines|
  {
    if |lines| == 0 then []
    else
      var (block, rest) := TakeUntil(lines, "PARAM:");
      [block] + Blocks(rest)
  }

  // ---------------------------------------------------------------------------
  // `parse_param`

  /** The outcome of `parse_param`: whether the argument is an output, and the
      parameter. */
  datatype Parsed = Parsed(isOutput: bool, param: Parameter)

  /** The first line of a block: `OUTPUT:name` for an output, `name` otherwise. The
      name of an output is the text after the first `OUTPUT:` and before any
      second one. */
  function OutputName(first: string): (bool, string) {
    if StartsWith(first, "OUTPUT:") then
      SplitAtStart(first, "OUTPUT:");
      (true, Split(first, "OUTPUT:")[1])
    else (false, first)
  }

  /** `in` and `ref` are Rust keywords; the generator appends `p`. */
  function Renamed(name: string): string {
    if name == "in" || name == "ref" then name + "p" else name
  }

  function Field(fields: seq<string>, k: nat): Result<string> {
    if k < |fields| then Ok(fields[k]) else Err(MissingField(Join(fields, ":")))
  }

  function I32Field(fields: seq<string>, k: nat): Result<i32> {
    match Field(fields, k)
    case Err(e) => Err(e)
    case Ok(text) => match ParseI32(text) case Some(v) => Ok(v) case None => Err(BadNumber(text))
  }

  function U64Field(fields: seq<string>, k: nat): Result<u64> {
    match Field(fields, k)
    case Err(e) => Err(e)
    case Ok(text) => match ParseU64(text) case Some(v) => Ok(v) case None => Err(BadNumber(text))
  }

  function F64Field(fields: seq<string>, k: nat, env: Env): Result<F64Token> {
    match Field(fields, k)
    case Err(e) => Err(e)
    case Ok(text) => match env.parseF64(text) case Some(v) => Ok(v) case None => Err(BadNumber(text))
  }

  /** `int:min:max:default`, the three numbers read in that order. */
  function IntKind(fields: seq<string>): Result<ParamType> {
    match I32Field(fields, 1)
    case Err(e) => Err(e)
    case Ok(mn) =>
      match I32Field(fields, 2)
      case Err(e) => Err(e)
      case Ok(mx) =>
        match I32Field(fields, 3)
        case Err(e) => Err(e)
        case Ok(d) => Ok(Int(mn, mx, d))
  }

  function UInt64Kind(fields: seq<string>): Result<ParamType> {
    match U64Field(fields, 1)
    case Err(e) => Err(e)
    case Ok(mn) =>
      match U64Field(fields, 2)
      case Err(e) => Err(e)
      case Ok(mx) =>
        match U64Field(fields, 3)
        case Err(e) => Err(e)
        case Ok(d) => Ok(UInt(mn, mx, d))
  }

  function DoubleKind(fields: seq<string>, env: Env): Result<ParamType> {
    match F64Field(fields, 1, env)
    case Err(e) => Err(e)
    case Ok(mn) =>
      match F64Field(fields, 2, env)
      case Err(e) => Err(e)
      case Ok(mx) =>
        match F64Field(fields, 3, env)
        case Err(e) => Err(e)
        case Ok(d) => Ok(Double(mn, mx, d))
  }

  /** The kinds that a type tag's prefix decides on its own, tried in the order of
      `parse_param`; `None` when the tag has none of those prefixes. */
  function FixedTag(tag: string, prev: Option<string>, env: Env): Option<Result<ParamType>> {
    if StartsWith(tag, "string") then Some(Ok(Str))
    else if StartsWith(tag, "VipsImage") then Some(Ok(VipsImage(prev)))
    else if StartsWith(tag, "VipsBlob") then Some(Ok(VipsBlob))
    else if StartsWith(tag, "VipsInterpolate") then Some(Ok(VipsInterpolate))
    else if StartsWith(tag, "bool") then
      var fields := Split(tag, ":");
      Some(if |fields| > 1 then Ok(Bool(fields[1] == "1")) else Err(MissingField(tag)))
    else if StartsWith(tag, "int") then Some(IntKind(Split(tag, ":")))
    else if StartsWith(tag, "double") then Some(DoubleKind(Split(tag, ":"), env))
    else if StartsWith(tag, "uint64") then Some(UInt64Kind(Split(tag, ":")))
    else if StartsWith(tag, "byte-data") then Some(Ok(ArrayByte))
    else if StartsWith(tag, "array of int") then Some(Ok(ArrayInt))
    else if StartsWith(tag, "array of double") then Some(Ok(ArrayDouble))
    else if StartsWith(tag, "array of images") then Some(Ok(ArrayImage))
    else None
  }

  predicate IsEnumTag(tag: string) {
    StartsWith(tag, "enum") || StartsWith(tag, "flags")
  }

  /** A `value:nick:name` line of an enumeration. */
  function EnumEntry(line: string): Result<Enumeration> {
    var fields := Split(line, ":");
    match ParseI32(fields[0])
    case None => Err(BadNumber(fields[0]))
    case Some(v) =>
      if |fields| < 2 then Err(MissingField(line))
      else if |fields| < 3 then Err(MissingField(line))
      else Ok(Enumeration(fields[2], fields[1], v))
  }

  /** The entries of an enumeration, read in order; the first bad line is fatal. */
  function EnumEntries(lines: seq<string>): Result<seq<Enumeration>>
    decreases |lines|
  {
    if |lines| == 0 then Ok([])
    else
      match EnumEntry(lines[0])
      case Err(e) => Err(e)
      case Ok(entry) => Prepend([entry], EnumEntries(lines[1..]))
  }

  function Prepend<T>(done: seq<T>, rest: Result<seq<T>>): Result<seq<T>> {
    match rest
    case Ok(more) => Ok(done + more)
    case Err(e) => Err(e)
  }

  lemma PrependNothing<T>(rest: Result<seq<T>>)
    ensures Prepend([], rest) == rest
  {
    if rest.Ok? {
      assert [] + rest.value == rest.value;
    }
  }

  lemma PrependTwice<T>(a: seq<T>, b: seq<T>, rest: Result<seq<T>>)
    ensures Prepend(a + b, rest) == Prepend(a, Prepend(b, rest))
  {
    if rest.Ok? {
      assert a + b + rest.value == a + (b + rest.value);
    }
  }

  /** The lines `4..len - 1` of a block: the entries between the tag and the
      default. */
  function EntryLines(block: seq<string>): seq<string>
    requires |block| >= 4
  {
    if |block| <= 5 then [] else block[4..|block| - 1]
  }

  /** `enum-Name` or `flags-Name`, then the entries, then the default value on the
      block's last line. */
  function EnumKind(block: seq<string>): Result<ParamType>
    requires |block| >= 4
  {
    var names := Split(block[3], "-");
    if |names| < 2 then Err(MissingField(block[3]))
    else
      match EnumEntries(EntryLines(block))
      case Err(e) => Err(e)
      case Ok(entries) =>
        var last := block[|block| - 1];
        match ParseI32(last)
        case None => Err(BadNumber(last))
        case Some(d) => Ok(Enum(names[1], entries, d))
  }

  /** The kind that the fourth line of a block names. */
  function TypeOf(block: seq<string>, prev: Option<string>, env: Env): Result<ParamType>
    requires |block| >= 4
  {
    match FixedTag(block[3], prev, env)
    case Some(r) => r
    case None =>
      if IsEnumTag(block[3]) then EnumKind(block)
      else Err(UnsupportedType(block[3]))
  }

  /** `parse_param`: a block is the argument's name, nick, description and type tag,
      followed by the entries and default of an enumeration. */
  function Param(block: seq<string>, order: u8, prev: Option<string>, env: Env): Result<Parsed> {
    if |block| < 4 then Err(MissingLine(Join(block, "\n")))
    else
      var (isOutput, raw) := OutputName(block[0]);
      var name := Renamed(raw);
      match TypeOf(block, prev, env)
      case Err(e) => Err(e)
      case Ok(t) => Ok(Parsed(isOutput, Parameter(order, env.snakeCase(name), name, env.classCase(block[1]), block[2], t)))
  }

  /** The `for` loop of `parse_param` over the entry lines of an enumeration. */
  method ReadEnumEntries(lines: seq<string>) returns (r: Result<seq<Enumeration>>)
    ensures r == EnumEntries(lines)
  {
    var entries: seq<Enumeration> := [];
    var i := 0;
    PrependNothing(EnumEntries(lines));
    while i < |lines|
      invariant 0 <= i <= |lines|
      invariant EnumEntries(lines) == Prepend(entries, EnumEntries(lines[i..]))
      decreases |lines| - i
    {
      assert lines[i..][1..] == lines[i + 1..];
      var entry := EnumEntry(lines[i]);
      if entry.Err? {
        return Err(entry.error);
      }
      PrependTwice(entries, [entry.value], EnumEntries(lines[i + 1..]));
      entries := entries + [entry.value];
      i := i + 1;
    }
    assert lines[i..] == [];
    assert entries + [] == entries;
    r := Ok(entries);
  }

  /** `parse_param` with its loop over the entries of an enumeration. */
  method ParseParam(block: seq<string>, order: u8, prev: Option<string>, env: Env) returns (r: Result<Parsed>)
    ensures r == Param(block, order, prev, env)
  {
    if |block| < 4 {
      return Err(MissingLine(Join(block, "\n")));
    }
    var (isOutput, raw) := OutputName(block[0]);
    var name := Renamed(raw);
    var tag := block[3];
    var t: Result<ParamType>;
    var fixed := FixedTag(tag, prev, env);
    if fixed.Some? {
      t := fixed.value;
    } else if IsEnumTag(tag) {
      var names := Split(tag, "-");
      if |names| < 2 {
        t := Err(MissingField(tag));
      } else {
        var entries := ReadEnumEntries(EntryLines(block));
        if entries.Err? {
          t := Err(entries.error);
        } else {
          var last := block[|block| - 1];
          var d := ParseI32(last);
          t := if d.None? then Err(BadNumber(last)) else Ok(Enum(names[1], entries.value, d.value));
        }
      }
    } else {
      t := Err(UnsupportedType(tag));
    }
    if t.Err? {
      return Err(t.error);
    }
    r := Ok(Parsed(isOutput, Parameter(order, env.snakeCase(name), name, env.classCase(block[1]), block[2], t.value)));
  }

  // ---------------------------------------------------------------------------
  // `parse_output`

  /** The four coefficients that replace the introspected matrix of `VipsAffine`. */
  function AffineParameters(): (r: seq<Parameter>)
    ensures |r| == 4
    ensures forall i :: 0 <= i < 4 ==>
      r[i].order as int == i + 2 && r[i].name == ["a", "b", "c", "d"][i] && r[i].vipsName == r[i].name &&
      r[i].nick == "Transformation Matrix" && r[i].description == "Transformation Matrix coefficient" &&
      r[i].paramType == Double(NEG_INFINITY, INFINITY, ZERO)
  {
    [AffineCoefficient(2, "a"), AffineCoefficient(3, "b"), AffineCoefficient(4, "c"), AffineCoefficient(5, "d")]
  }

  function AffineCoefficient(order: u8, name: string): Parameter {
    Parameter(order, name, name, "Transformation Matrix", "Transformation Matrix coefficient",
              Double(NEG_INFINITY, INFINITY, ZERO))
  }

  /** What the loop over the required arguments has gathered. */
  datatype Collected = Collected(required: seq<Parameter>, output: seq<Parameter>, order: u8)

  /** The back-reference given to the argument parsed at `order`: the name of the
      first required argument when that argument is an array of images and this is
      the argument in second place. */
  function PrevFor(required: seq<Parameter>, order: u8): Option<string> {
    if |required| > 0 && order == 1 && required[0].paramType.ArrayImage? then Some(required[0].name) else None
  }

  /** One turn of the loop over the required arguments. */
  function RequiredStep(block: seq<string>, affine: bool, st: Collected, env: Env): Result<Collected> {
    if affine && st.order > 1 then
      Ok(st.(required := st.required + AffineParameters()))
    else
      match Param(block, st.order, PrevFor(st.required, st.order), env)
      case Err(e) => Err(e)
      case Ok(parsed) =>
        var st' := if parsed.isOutput then st.(output := st.output + [parsed.param])
                   else st.(required := st.required + [parsed.param]);
        if st.order == 255 then Err(OrderOverflow) else Ok(st'.(order := st.order + 1))
  }

  function RequiredFold(blocks: seq<seq<string>>, affine: bool, st: Collected, env: Env): Result<Collected>
    decreases |blocks|
  {
    if |blocks| == 0 then Ok(st)
    else
      match RequiredStep(blocks[0], affine, st, env)
      case Err(e) => Err(e)
      case Ok(st') => RequiredFold(blocks[1..], affine, st', env)
  }

  /** The optional arguments: every block parsed at order 0 with no back-reference,
      and kept as optional whether or not it is an output. */
  function OptionalFold(blocks: seq<seq<string>>, env: Env): Result<seq<Parameter>>
    decreases |blocks|
  {
    if |blocks| == 0 then Ok([])
    else
      match Param(blocks[0], 0, None, env)
      case Err(e) => Err(e)
      case Ok(parsed) => Prepend([parsed.param], OptionalFold(blocks[1..], env))
  }

  /** The name of the generated function: the nickname in snake case, except that
      `match` (a Rust keyword) becomes `matches`. */
  function OperationName(nickname: string, env: Env): string {
    if nickname == "match" then "matches" else env.snakeCase(nickname)
  }

  /** The regions of a chunk's lines: the header, the required argument lines and
      the optional argument lines. */
  datatype Regions = Regions(header: seq<string>, required: seq<string>, optional: seq<string>)

  function RegionsOf(chunk: string): Regions {
    var lines := DropEmpty(Lines(chunk));
    var (header, rest) := TakeUntil(lines, "REQUIRED:");
    var (required, rest') := TakeUntil(rest, "OPTIONAL:");
    Regions(header, SkipOne(required), SkipOne(rest'))
  }

  /** One chunk of the dump, read as `parse_output` reads it. */
  function OperationOf(chunk: string, env: Env): Result<Operation> {
    var rg := RegionsOf(chunk);
    if |rg.header| < 2 then Err(MissingLine(Join(rg.header, "\n")))
    else
      var nameSplit := Split(rg.header[0], ":");
      if |nameSplit| < 2 then Err(MissingField(rg.header[0]))
      else
        match RequiredFold(Blocks(rg.required), nameSplit[1] == "VipsAffine", Collected([], [], 0), env)
        case Err(e) => Err(e)
        case Ok(st) =>
          match OptionalFold(Blocks(rg.optional), env)
          case Err(e) => Err(e)
          case Ok(optional) =>
            Ok(Operation(OperationName(nameSplit[0], env), nameSplit[0], nameSplit[1], rg.header[1],
                         st.required, optional, st.output))
  }

  /** The chunks of a dump: the non-empty texts between `OPERATION:` markers. */
  function Chunks(dump: string): seq<string> {
    DropEmpty(Split(dump, "OPERATION:"))
  }

  function OperationsOf(chunks: seq<string>, env: Env): Result<seq<Operation>>
    decreases |chunks|
  {
    if |chunks| == 0 then Ok([])
    else
      match OperationOf(chunks[0], env)
      case Err(e) => Err(e)
      case Ok(op) => Prepend([op], OperationsOf(chunks[1..], env))
  }

  /** `parse_output`: every chunk of the dump in order; the first fatal chunk makes
      the whole fatal. */
  function Operations(dump: string, env: Env): Result<seq<Operation>> {
    OperationsOf(Chunks(dump), env)
  }

  /** The first loop of `parse_output`'s closure: the required arguments, with the
      `order` counter, the back-reference and the `VipsAffine` substitution. */
  method CollectRequired(region: seq<string>, affine: bool, env: Env) returns (r: Result<Collected>)
    ensures r == RequiredFold(Blocks(region), affine, Collected([], [], 0), env)
  {
    var required: seq<Parameter> := [];
    var output: seq<Parameter> := [];
    var order: u8 := 0;
    var lines := region;
    while |lines| > 0
      invariant RequiredFold(Blocks(region), affine, Collected([], [], 0), env)
             == RequiredFold(Blocks(lines), affine, Collected(required, output, order), env)
      decreases |lines|
    {
      var (block, rest) := TakeUntil(lines, "PARAM:");
      assert Blocks(lines) == [block] + Blocks(rest);
      ghost var st := Collected(required, output, order);
      lines := rest;
      if affine && order > 1 {
        required := required + AffineParameters();
      } else {
        var prev: Option<string> := None;
        if |required| > 0 && order == 1 && required[0].paramType.ArrayImage? {
          prev := Some(required[0].name);
        }
        assert prev == PrevFor(st.required, st.order);
        var parsed := ParseParam(block, order, prev, env);
        if parsed.Err? {
          assert RequiredStep(block, affine, st, env).Err?;
          return Err(parsed.error);
        }
        if parsed.value.isOutput {
          output := output + [parsed.value.param];
        } else {
          required := required + [parsed.value.param];
        }
        if order == 255 {
          assert RequiredStep(block, affine, st, env) == Err(OrderOverflow);
          return Err(OrderOverflow);
        }
        order := order + 1;
      }
      assert RequiredStep(block, affine, st, env) == Ok(Collected(required, output, order));
    }
    r := Ok(Collected(required, output, order));
  }

  /** The second loop of `parse_output`'s closure: the optional arguments. */
  method CollectOptional(region: seq<string>, env: Env) returns (r: Result<seq<Parameter>>)
    ensures r == OptionalFold(Blocks(region), env)
  {
    var optional: seq<Parameter> := [];
    var lines := region;
    PrependNothing(OptionalFold(Blocks(region), env));
    while |lines| > 0
      invariant OptionalFold(Blocks(region), env) == Prepend(optional, OptionalFold(Blocks(lines), env))
      decreases |lines|
    {
      var (block, rest) := TakeUntil(lines, "PARAM:");
      assert Blocks(lines) == [block] + Blocks(rest);
      lines := rest;
      var parsed := ParseParam(block, 0, None, env);
      if parsed.Err? {
        return Err(parsed.error);
      }
      PrependTwice(optional, [parsed.value.param], OptionalFold(Blocks(rest), env));
      optional := optional + [parsed.value.param];
    }
    assert optional + [] == optional;
    r := Ok(optional);
  }

  /** The closure of `parse_output` that reads one chunk. */
  method ParseOperation(chunk: string, env: Env) returns (r: Result<Operation>)
    ensures r == OperationOf(chunk, env)
  {
    var rg := RegionsOf(chunk);
    if |rg.header| < 2 {
      return Err(MissingLine(Join(rg.header, "\n")));
    }
    var nameSplit := Split(rg.header[0], ":");
    if |nameSplit| < 2 {
      return Err(MissingField(rg.header[0]));
    }
    var collected := CollectRequired(rg.required, nameSplit[1] == "VipsAffine", env);
    if collected.Err? {
      return Err(collected.error);
    }
    var optional := CollectOptional(rg.optional, env);
    if optional.Err? {
      return Err(optional.error);
    }
    r := Ok(Operation(OperationName(nameSplit[0], env), nameSplit[0], nameSplit[1], rg.header[1],
                      collected.value.required, optional.value, collected.value.output));
  }

  /** `parse_output`: the `map` over the chunks and its `collect`. */
  method ParseOutput(dump: string, env: Env) returns (r: Result<seq<Operation>>)
    ensures r == Operations(dump, env)
  {
    var chunks := Chunks(dump);
    var ops: seq<Operation> := [];
    PrependNothing(OperationsOf(chunks, env));
    for i := 0 to |chunks|
      invariant OperationsOf(chunks, env) == Prepend(ops, OperationsOf(chunks[i..], env))
    {
      assert chunks[i..][1..] == chunks[i + 1..];
      var op := ParseOperation(chunks[i], env);
      if op.Err? {
        return Err(op.error);
      }
      PrependTwice(ops, [op.value], OperationsOf(chunks[i + 1..], env));
      ops := ops + [op.value];
    }
    assert chunks[|chunks|..] == [];
    assert ops + [] == ops;
    r := Ok(ops);
  }

  // ---------------------------------------------------------------------------
  // Properties of `parse_param`

  /** The tag prefixes that `parse_param` recognises. */
  const KNOWN_TAGS: seq<string> := ["string", "VipsImage", "VipsBlob", "VipsInterpolate", "bool", "int",
    "double", "uint64", "byte-data", "array of int", "array of double", "array of images", "enum", "flags"]

  /** A block's first line decides the output flag and the names: `OUTPUT:` marks an
      output and is removed, `in` and `ref` gain a `p`, and the Rust name is the
      snake case of that; the nick is the class case of the second line and the
      description is the third line. */
  lemma {:induction false} ParamNames(n: string, isOutput: bool, nick: string, description: string, tag: string,
                                      more: seq<string>, order: u8, prev: Option<string>, env: Env)
    requires Find(n, "OUTPUT:") == None
    ensures var block := [(if isOutput then "OUTPUT:" else "") + n, nick, description, tag] + more;
      var r := Param(block, order, prev, env);
      r.Ok? ==> r.value.isOutput == isOutput &&
                r.value.param.vipsName == (if n == "in" || n == "ref" then n + "p" else n) &&
                r.value.param.name == env.snakeCase(r.value.param.vipsName) &&
                r.value.param.nick == env.classCase(nick) &&
                r.value.param.description == description &&
                r.value.param.order == order
  {
    var first := (if isOutput then "OUTPUT:" else "") + n;
    if isOutput {
      assert first[..7] == "OUTPUT:";
      SplitAtStart(first, "OUTPUT:");
      assert first[7..] == n;
      assert Split(n, "OUTPUT:") == [n];
    } else {
      assert first == n;
      assert !OccursAt(n, "OUTPUT:", 0);
    }
  }

  /** A tag is rejected as unsupported exactly when it has none of the recognised
      prefixes; a malformed tag with a recognised prefix fails in another way. */
  lemma UnsupportedTag(block: seq<string>, prev: Option<string>, env: Env)
    requires |block| >= 4
    ensures (TypeOf(block, prev, env).Err? && TypeOf(block, prev, env).error.UnsupportedType?) <==>
            forall k :: 0 <= k < |KNOWN_TAGS| ==> !StartsWith(block[3], KNOWN_TAGS[k])
    ensures TypeOf(block, prev, env).Err? && TypeOf(block, prev, env).error.UnsupportedType? ==>
            TypeOf(block, prev, env).error.tag == block[3]
  {
    var tag := block[3];
    if forall k :: 0 <= k < |KNOWN_TAGS| ==> !StartsWith(tag, KNOWN_TAGS[k]) {
      assert !StartsWith(tag, KNOWN_TAGS[0]) && !StartsWith(tag, KNOWN_TAGS[1]) && !StartsWith(tag, KNOWN_TAGS[2]);
      assert !StartsWith(tag, KNOWN_TAGS[3]) && !StartsWith(tag, KNOWN_TAGS[4]) && !StartsWith(tag, KNOWN_TAGS[5]);
      assert !StartsWith(tag, KNOWN_TAGS[6]) && !StartsWith(tag, KNOWN_TAGS[7]) && !StartsWith(tag, KNOWN_TAGS[8]);
      assert !StartsWith(tag, KNOWN_TAGS[9]) && !StartsWith(tag, KNOWN_TAGS[10]) && !StartsWith(tag, KNOWN_TAGS[11]);
      assert !StartsWith(tag, KNOWN_TAGS[12]) && !StartsWith(tag, KNOWN_TAGS[13]);
    } else {
      var k :| 0 <= k < |KNOWN_TAGS| && StartsWith(tag, KNOWN_TAGS[k]);
      NotUnsupported(tag, k, prev, block, env);
    }
  }

  lemma NotUnsupported(tag: string, k: nat, prev: Option<string>, block: seq<string>, env: Env)
    requires |block| >= 4 && tag == block[3]
    requires k < |KNOWN_TAGS| && StartsWith(tag, KNOWN_TAGS[k])
    ensures !(TypeOf(block, prev, env).Err? && TypeOf(block, prev, env).error.UnsupportedType?)
  {
    if FixedTag(tag, prev, env).None? {
      assert k >= 12;
      if IsEnumTag(tag) {
        EnumKindNotUnsupported(block);
      }
    } else {
      FixedTagNotUnsupported(tag, prev, env);
    }
  }

  lemma FixedTagNotUnsupported(tag: string, prev: Option<string>, env: Env)
    requires FixedTag(tag, prev, env).Some?
    ensures !(FixedTag(tag, prev, env).value.Err? && FixedTag(tag, prev, env).value.error.UnsupportedType?)
  {
  }

  lemma {:induction false} EnumEntriesNotUnsupported(lines: seq<string>)
    ensures !(EnumEntries(lines).Err? && EnumEntries(lines).error.UnsupportedType?)
    decreases |lines|
  {
    if |lines| > 0 {
      EnumEntriesNotUnsupported(lines[1..]);
    }
  }

  lemma EnumKindNotUnsupported(block: seq<string>)
    requires |block| >= 4
    ensures !(EnumKind(block).Err? && EnumKind(block).error.UnsupportedType?)
  {
    EnumEntriesNotUnsupported(EntryLines(block));
  }

  /** The back-reference reaches an image parameter and nothing else: an image
      parameter carries exactly the reference it was given, and every other kind is
      parsed as if no reference were given. */
  lemma BackReferenceToImagesOnly(block: seq<string>, order: u8, prev: Option<string>, env: Env)
    ensures var r := Param(block, order, prev, env);
      r.Ok? ==> (r.value.param.paramType.VipsImage? ==> r.value.param.paramType.prev == prev) &&
                (!r.value.param.paramType.VipsImage? ==> r == Param(block, order, None, env))
  {
    if |block| >= 4 && FixedTag(block[3], prev, env).Some? {
      assert StartsWith(block[3], "VipsImage") || FixedTag(block[3], prev, env) == FixedTag(block[3], None, env);
    }
  }

  // ---------------------------------------------------------------------------
  // Properties of the loop over the required arguments

  function Repeat<T>(xs: seq<T>, n: nat): seq<T> {
    if n == 0 then [] else xs + Repeat(xs, n - 1)
  }

  /** `VipsAffine`: once two arguments have been read, every further block is
      discarded unread and replaced by the four coefficients `a`, `b`, `c` and `d`,
      and neither the outputs nor the order counter change. */
  lemma {:induction false} AffineSubstitution(blocks: seq<seq<string>>, st: Collected, env: Env)
    requires st.order > 1
    ensures RequiredFold(blocks, true, st, env) ==
            Ok(st.(required := st.required + Repeat(AffineParameters(), |blocks|)))
    decreases |blocks|
  {
    if |blocks| == 0 {
      assert st.required + [] == st.required;
    } else {
      var st' := st.(required := st.required + AffineParameters());
      AffineSubstitution(blocks[1..], st', env);
      assert st.required + AffineParameters() + Repeat(AffineParameters(), |blocks| - 1)
          == st.required + Repeat(AffineParameters(), |blocks|);
    }
  }

  /** For an operation other than `VipsAffine`, the parameters gathered so far carry
      the orders `0 .. n - 1`, each once, increasing along each list. */
  predicate Numbered(required: seq<Parameter>, output: seq<Parameter>, n: nat) {
    |required| + |output| == n &&
    (forall i :: 0 <= i < |required| ==> required[i].order < n) &&
    (forall i :: 0 <= i < |output| ==> output[i].order < n) &&
    (forall i, j :: 0 <= i < j < |required| ==> required[i].order < required[j].order) &&
    (forall i, j :: 0 <= i < j < |output| ==> output[i].order < output[j].order) &&
    (forall i, j :: 0 <= i < |required| && 0 <= j < |output| ==> required[i].order != output[j].order)
  }

  lemma StepNumbered(block: seq<string>, st: Collected, env: Env)
    requires Numbered(st.required, st.output, st.order) && RequiredStep(block, false, st, env).Ok?
    ensures var st' := RequiredStep(block, false, st, env).value; Numbered(st'.required, st'.output, st'.order)
    ensures RequiredStep(block, false, st, env).value.order == st.order + 1
  {
    var prev := PrevFor(st.required, st.order);
    var parsed := Param(block, st.order, prev, env).value;
    ParamOrder(block, st.order, prev, env);
    NumberedPush(st.required, st.output, st.order as nat, parsed.param);
  }

  /** A parameter of the next order can join either list. */
  lemma NumberedPush(required: seq<Parameter>, output: seq<Parameter>, n: nat, p: Parameter)
    requires Numbered(required, output, n) && p.order as nat == n
    ensures Numbered(required + [p], output, n + 1)
    ensures Numbered(required, output + [p], n + 1)
  {
  }

  lemma ParamOrder(block: seq<string>, order: u8, prev: Option<string>, env: Env)
    requires Param(block, order, prev, env).Ok?
    ensures Param(block, order, prev, env).value.param.order == order
  {
  }

  /** In an operation other than `VipsAffine`, the k-th required block becomes the
      parameter of order k, on the required or on the output list, and the order
      counter ends at the number of blocks. */
  lemma {:induction false} RequiredNumbered(blocks: seq<seq<string>>, st: Collected, env: Env)
    requires Numbered(st.required, st.output, st.order) && RequiredFold(blocks, false, st, env).Ok?
    ensures var r := RequiredFold(blocks, false, st, env).value; Numbered(r.required, r.output, r.order)
    ensures RequiredFold(blocks, false, st, env).value.order == st.order + |blocks|
    decreases |blocks|
  {
    if |blocks| > 0 {
      StepNumbered(blocks[0], st, env);
      RequiredNumbered(blocks[1..], RequiredStep(blocks[0], false, st, env).value, env);
    }
  }

  /** The back-reference discipline: a parameter carries a back-reference only at
      order 1, and then it names the first required parameter, an array of images
      read at order 0. */
  predicate ImageReferences(required: seq<Parameter>, output: seq<Parameter>) {
    forall p :: p in required + output && p.paramType.VipsImage? && p.paramType.prev.Some? ==>
      p.order == 1 && |required| > 0 && required[0].order == 0 &&
      required[0].paramType.ArrayImage? && p.paramType.prev.value == required[0].name
  }

  /** The same, with what the loop needs to know about the parameters before the
      second one. */
  predicate BackReferences(st: Collected) {
    (st.order == 0 ==> st.required == [] && st.output == []) &&
    (st.order == 1 ==> forall i :: 0 <= i < |st.required| ==> st.required[i].order == 0) &&
    ImageReferences(st.required, st.output)
  }

  lemma StepBackReferences(block: seq<string>, affine: bool, st: Collected, env: Env)
    requires BackReferences(st) && RequiredStep(block, affine, st, env).Ok?
    ensures BackReferences(RequiredStep(block, affine, st, env).value)
  {
    var st' := RequiredStep(block, affine, st, env).value;
    if !(affine && st.order > 1) {
      var prev := PrevFor(st.required, st.order);
      var parsed := Param(block, st.order, prev, env).value;
      BackReferenceToImagesOnly(block, st.order, prev, env);
      ParamOrder(block, st.order, prev, env);
      assert st'.required + st'.output == st.required + st.output + [parsed.param] ||
             st'.required + st'.output == st.required + [parsed.param] + st.output;
      assert forall p :: p in st'.required + st'.output ==> p in st.required + st.output || p == parsed.param;
      if |st.required| > 0 {
        assert st'.required[0] == st.required[0];
      }
    } else {
      assert forall p :: p in st'.required + st'.output ==> p in st.required + st.output || p in AffineParameters();
      if |st.required| > 0 {
        assert st'.required[0] == st.required[0];
      }
    }
  }

  /** Every parameter that the required loop produces obeys the back-reference
      discipline, `VipsAffine` or not. */
  lemma {:induction false} RequiredBackReferences(blocks: seq<seq<string>>, affine: bool, st: Collected, env: Env)
    requires BackReferences(st) && RequiredFold(blocks, affine, st, env).Ok?
    ensures BackReferences(RequiredFold(blocks, affine, st, env).value)
    decreases |blocks|
  {
    if |blocks| > 0 {
      StepBackReferences(blocks[0], affine, st, env);
      RequiredBackReferences(blocks[1..], affine, RequiredStep(blocks[0], affine, st, env).value, env);
    }
  }

  /** The second required argument, when it is an image, is given the first one's
      name exactly when the first one is an array of images. */
  lemma SecondImageReference(block: seq<string>, affine: bool, st: Collected, env: Env)
    requires st.order == 1 && RequiredStep(block, affine, st, env).Ok?
    ensures var st' := RequiredStep(block, affine, st, env).value;
      var p := if |st'.output| > |st.output| then st'.output[|st'.output| - 1] else st'.required[|st'.required| - 1];
      p.paramType.VipsImage? ==>
        p.paramType.prev == (if |st.required| > 0 && st.required[0].paramType.ArrayImage? then Some(st.required[0].name) else None)
  {
    var prev := PrevFor(st.required, st.order);
    BackReferenceToImagesOnly(block, st.order, prev, env);
  }

  /** Optional parameters all have order 0 and never carry a back-reference. */
  lemma {:induction false} OptionalUnnumbered(blocks: seq<seq<string>>, env: Env)
    requires OptionalFold(blocks, env).Ok?
    ensures forall p :: p in OptionalFold(blocks, env).value ==>
      p.order == 0 && (p.paramType.VipsImage? ==> p.paramType.prev.None?)
    decreases |blocks|
  {
    if |blocks| > 0 {
      BackReferenceToImagesOnly(blocks[0], 0, None, env);
      OptionalUnnumbered(blocks[1..], env);
    }
  }

  /** Every operation read from a dump obeys the back-reference discipline, its
      optional parameters have order 0, and, unless it is `VipsAffine`, its
      required and output parameters are numbered `0 ..` without gaps. */
  lemma OperationInvariants(chunk: string, env: Env)
    requires OperationOf(chunk, env).Ok?
    ensures var op := OperationOf(chunk, env).value;
      ImageReferences(op.required, op.output) &&
      (op.vipsOperation != "VipsAffine" ==> Numbered(op.required, op.output, |op.required| + |op.output|)) &&
      (forall p :: p in op.optional ==> p.order == 0 && (p.paramType.VipsImage? ==> p.paramType.prev.None?))
  {
    var op := OperationOf(chunk, env).value;
    var rg := RegionsOf(chunk);
    var nameSplit := Split(rg.header[0], ":");
    var affine := nameSplit[1] == "VipsAffine";
    var init := Collected([], [], 0);
    var st := RequiredFold(Blocks(rg.required), affine, init, env).value;
    var optional := OptionalFold(Blocks(rg.optional), env).value;
    assert op.required == st.required && op.output == st.output && op.optional == optional;
    assert op.vipsOperation == nameSplit[1];
    RequiredBackReferences(Blocks(rg.required), affine, init, env);
    if !affine {
      RequiredNumbered(Blocks(rg.required), init, env);
    }
    OptionalUnnumbered(Blocks(rg.optional), env);
  }
}
