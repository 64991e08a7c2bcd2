/** The type model: the parameter kinds of the libvips introspection catalogue and,
    for each kind, the Rust type a caller sees, the native type passed to libvips,
    the default value expression, the documentation text and the `enum`
    declaration that `ParamType` generates. */
module Types {
  import opened Base
  import opened Text
  import opened Foreign

  /** One entry of a libvips enumeration or flags type. */
  datatype Enumeration = Enumeration(name: string, nick: string, value: i32)

  /** An `f64`, represented by the text Rust's `Display` prints for it. */
  type F64Token = string

  /** `-std::f64::INFINITY`, `std::f64::INFINITY` and `0.0` as `Display` prints
      them. */
  const NEG_INFINITY: F64Token := "-inf"
  const INFINITY: F64Token := "inf"
  const ZERO: F64Token := "0"

  datatype ParamType =
    | Int(imin: i32, imax: i32, idefault: i32)
    | UInt(umin: u64, umax: u64, udefault: u64)
    | Double(dmin: F64Token, dmax: F64Token, ddefault: F64Token)
    | Str
    | Enum(enumName: string, entries: seq<Enumeration>, edefault: i32)
    | Bool(bdefault: bool)
    | ArrayInt
    | ArrayDouble
    | ArrayImage
    | ArrayByte
    | VipsInterpolate
    | VipsImage(prev: Option<string>)
    | VipsBlob

  datatype Parameter = Parameter(
    order: u8,
    name: string,
    vipsName: string,
    nick: string,
    description: string,
    paramType: ParamType)

  datatype Operation = Operation(
    name: string,
    vipsName: string,
    vipsOperation: string,
    description: string,
    required: seq<Parameter>,
    optional: seq<Parameter>,
    output: seq<Parameter>)

  /** `impl PartialEq for Parameter`: two parameters are equal when their names are. */
  predicate SameParameter(a: Parameter, b: Parameter) {
    a.name == b.name
  }

  /** `Vec::contains` under that equality. */
  predicate ContainsParameter(ps: seq<Parameter>, p: Parameter) {
    exists i :: 0 <= i < |ps| && SameParameter(ps[i], p)
  }

  predicate IsScalarOrEnum(t: ParamType) {
    t.Int? || t.UInt? || t.Double? || t.Bool? || t.Enum?
  }

  predicate IsArray(t: ParamType) {
    t.ArrayInt? || t.ArrayDouble? || t.ArrayImage?
  }

  // ---------------------------------------------------------------------------
  // Names

  /** `ParamType::enum_name`: the part of a GType name after its first `Vips`, up
      to a second `Vips` if there is one; the whole name when it holds no `Vips`. */
  function EnumName(name: string): string {
    var split := Split(name, "Vips");
    if |split| > 1 then split[1] else split[0]
  }

  /** A GType name made of `Vips` and a remainder free of `Vips` is named by the
      remainder; a name without `Vips` keeps its name. */
  lemma EnumNameOfGTypeName(rest: string)
    requires Find(rest, "Vips") == None
    ensures EnumName("Vips" + rest) == rest
    ensures EnumName(rest) == rest
  {
    var name := "Vips" + rest;
    assert StartsWith(name, "Vips");
    SplitAtStart(name, "Vips");
    assert name[4..] == rest;
  }

  lemma EnumNameNoLineFeed(name: string)
    requires '\n' !in name
    ensures '\n' !in EnumName(name)
  {
    SplitKeeps(name, "Vips", '\n');
  }

  // ---------------------------------------------------------------------------
  // Types

  /** `ParamType::struct_type`: the owned Rust type of an options field or a
      result. */
  function StructType(t: ParamType): string {
    match t
    case Int(_, _, _) => "i32"
    case UInt(_, _, _) => "u64"
    case Double(_, _, _) => "f64"
    case Str => "String"
    case Bool(_) => "bool"
    case ArrayInt => "Vec<i32>"
    case ArrayDouble => "Vec<f64>"
    case ArrayByte => "Vec<u8>"
    case ArrayImage => "Vec<VipsImage>"
    case VipsInterpolate => "VipsInterpolate"
    case VipsImage(_) => "VipsImage"
    case VipsBlob => "Vec<u8>"
    case Enum(name, _, _) => EnumName(name)
  }

  /** `ParamType::param_type`: the Rust type of a positional argument. */
  function ParamTypeName(t: ParamType): string {
    match t
    case Int(_, _, _) => "i32"
    case UInt(_, _, _) => "u64"
    case Double(_, _, _) => "f64"
    case Str => "&str"
    case Bool(_) => "bool"
    case ArrayInt => "&mut [i32]"
    case ArrayDouble => "&mut [f64]"
    case ArrayByte => "&[u8]"
    case ArrayImage => "&mut [VipsImage]"
    case VipsInterpolate => "&VipsInterpolate"
    case VipsImage(_) => "&VipsImage"
    case VipsBlob => "&[u8]"
    case Enum(name, _, _) => EnumName(name)
  }

  /** Scalars and enumerations are passed by value, with the same type they have
      in an options record; every other kind is passed by reference. */
  lemma {:induction false} PassingConvention(t: ParamType)
    requires t.Enum? ==> IsIdentifier(EnumName(t.enumName))
    ensures IsScalarOrEnum(t) ==> ParamTypeName(t) == StructType(t)
    ensures !IsScalarOrEnum(t) <==> StartsWith(ParamTypeName(t), "&")
    ensures !IsScalarOrEnum(t) ==> ParamTypeName(t) != StructType(t)
  {
    var n := ParamTypeName(t);
    assert n[..1] == [n[0]];
  }

  /** `ParamType::vips_in_type`: the native type of an input, which for the three
      array kinds depends on whether the input is passed by position or, as an
      optional argument, by name. */
  function VipsInType(t: ParamType, isOptional: bool): string {
    match t
    case Int(_, _, _) => "i32"
    case UInt(_, _, _) => "u64"
    case Double(_, _, _) => "f64"
    case Str => "CString"
    case Bool(_) => "i32"
    case ArrayInt => if !isOptional then "*mut i32" else "utils::VipsArrayIntWrapper"
    case ArrayDouble => if !isOptional then "*mut f64" else "utils::VipsArrayDoubleWrapper"
    case ArrayByte => "*mut c_void"
    case ArrayImage =>
      if !isOptional then "*mut *mut bindings::VipsImage" else "utils::VipsArrayImageWrapper"
    case VipsInterpolate => "*mut bindings::VipsInterpolate"
    case VipsImage(_) => "*mut bindings::VipsImage"
    case VipsBlob => "*mut bindings::VipsBlob"
    case Enum(_, _, _) => "i32"
  }

  /** Only arrays of ints, doubles and images change native type between the
      positional and the by-name convention, and by name they are wrappers. */
  lemma InTypeByContext(t: ParamType)
    ensures VipsInType(t, false) != VipsInType(t, true) <==> IsArray(t)
    ensures IsArray(t) ==> StartsWith(VipsInType(t, true), "utils::")
  {
  }

  /** `ParamType::vips_out_type`: the native type of an output slot. */
  function VipsOutType(t: ParamType): string {
    match t
    case Int(_, _, _) => "i32"
    case UInt(_, _, _) => "u64"
    case Double(_, _, _) => "f64"
    case Str => "*mut c_char"
    case Bool(_) => "i32"
    case ArrayInt => "*mut i32"
    case ArrayDouble => "*mut f64"
    case ArrayByte => "*mut c_void"
    case ArrayImage => "*mut bindings::VipsImage"
    case VipsInterpolate => "*mut bindings::VipsInterpolate"
    case VipsImage(_) => "*mut bindings::VipsImage"
    case VipsBlob => "*mut bindings::VipsBlob"
    case Enum(_, _, _) => "*mut i32"
  }

  /** Numbers and booleans come back by value, with the native type they are
      passed in with; every other kind comes back through a pointer. */
  lemma OutTypeByKind(t: ParamType)
    ensures StartsWith(VipsOutType(t), "*mut ") <==> !(t.Int? || t.UInt? || t.Double? || t.Bool?)
    ensures t.Int? || t.UInt? || t.Double? || t.Bool? ==> VipsOutType(t) == VipsInType(t, false)
  {
    var o := VipsOutType(t);
    if |o| >= 5 {
      assert o[..5] == [o[0], o[1], o[2], o[3], o[4]];
    }
  }

  // ---------------------------------------------------------------------------
  // Defaults

  function BoolText(b: bool): string {
    if b then "true" else "false"
  }

  /** The entries whose value is `value`, in order (the `filter` of
      `ParamType::default`). */
  function EntriesWithValue(entries: seq<Enumeration>, value: i32): (r: seq<Enumeration>)
    ensures forall e :: e in r ==> e in entries && e.value == value
  {
    if |entries| == 0 then []
    else (if entries[0].value == value then [entries[0]] else []) + EntriesWithValue(entries[1..], value)
  }

  /** `ParamType::default`: the Rust expression of a kind's default value; `None`
      where the source panics, an enumeration whose default is no entry's value. */
  function Default(t: ParamType, env: Env): Option<string> {
    match t
    case Int(_, _, d) => Some("i32::from(" + IntToString(d) + ")")
    case UInt(_, _, d) => Some(IntToString(d))
    case Double(_, _, d) => Some("f64::from(" + d + ")")
    case Str => Some("String::new()")
    case Bool(d) => Some(BoolText(d))
    case ArrayInt => Some("Vec::new()")
    case ArrayDouble => Some("Vec::new()")
    case ArrayByte => Some("Vec::new()")
    case ArrayImage => Some("Vec::new()")
    case VipsInterpolate => Some("VipsInterpolate::new()")
    case VipsImage(_) => Some("VipsImage::new()")
    case VipsBlob => Some("Vec::new()")
    case Enum(name, entries, d) =>
      var matching := EntriesWithValue(entries, d);
      if |matching| == 0 then None
      else Some(EnumName(name) + "::" + env.classCase(matching[0].nick))
  }

  lemma {:induction false} FirstEntryWithValue(entries: seq<Enumeration>, value: i32, k: nat)
    requires k < |entries| && entries[k].value == value
    requires forall j :: 0 <= j < k ==> entries[j].value != value
    ensures |EntriesWithValue(entries, value)| > 0 && EntriesWithValue(entries, value)[0] == entries[k]
  {
    if k > 0 {
      FirstEntryWithValue(entries[1..], value, k - 1);
    }
  }

  lemma {:induction false} NoEntryWithValue(entries: seq<Enumeration>, value: i32)
    requires forall j :: 0 <= j < |entries| ==> entries[j].value != value
    ensures EntriesWithValue(entries, value) == []
  {
    if |entries| > 0 {
      NoEntryWithValue(entries[1..], value);
    }
  }

  lemma {:induction false} SomeEntryWithValue(entries: seq<Enumeration>, value: i32, k: nat)
    requires k < |entries| && entries[k].value == value
    ensures |EntriesWithValue(entries, value)| > 0
  {
    if k > 0 && entries[0].value != value {
      SomeEntryWithValue(entries[1..], value, k - 1);
    }
  }

  /** The default of an enumeration names the first entry whose value equals the
      declared default, as `EnumName::Nick`; there is none exactly when no entry has
      that value. */
  lemma EnumDefault(t: ParamType, env: Env)
    requires t.Enum?
    ensures Default(t, env).None? <==> forall j :: 0 <= j < |t.entries| ==> t.entries[j].value != t.edefault
    ensures forall k :: 0 <= k < |t.entries| && t.entries[k].value == t.edefault &&
                        (forall j :: 0 <= j < k ==> t.entries[j].value != t.edefault) ==>
              Default(t, env) == Some(EnumName(t.enumName) + "::" + env.classCase(t.entries[k].nick))
  {
    if exists k :: 0 <= k < |t.entries| && t.entries[k].value == t.edefault {
      var k :| 0 <= k < |t.entries| && t.entries[k].value == t.edefault;
      SomeEntryWithValue(t.entries, t.edefault, k);
    } else {
      NoEntryWithValue(t.entries, t.edefault);
    }
    forall k | 0 <= k < |t.entries| && t.entries[k].value == t.edefault &&
               (forall j :: 0 <= j < k ==> t.entries[j].value != t.edefault)
      ensures Default(t, env) == Some(EnumName(t.enumName) + "::" + env.classCase(t.entries[k].nick))
    {
      FirstEntryWithValue(t.entries, t.edefault, k);
    }
  }

  /** Every kind has a default except an enumeration none of whose entries has
      the declared default value. */
  lemma DefaultFails(t: ParamType, env: Env)
    ensures Default(t, env).None? <==>
      t.Enum? && forall j :: 0 <= j < |t.entries| ==> t.entries[j].value != t.edefault
  {
    if t.Enum? {
      EnumDefault(t, env);
    }
  }

  // ---------------------------------------------------------------------------
  // Documentation and enumeration declarations

  /** `Enumeration::doc`. */
  function EntryDoc(e: Enumeration, env: Env): string {
    "///  `" + env.classCase(e.nick) + "` -> " + e.name + " = " + IntToString(e.value)
  }

  /** The identifier of an entry in the generated `enum`: its nick in class case,
      except for `VIPS_INTERPRETATION_LABS`, whose nick would clash with that of
      `VIPS_INTERPRETATION_LAB`. */
  function EntryIdent(e: Enumeration, env: Env): string {
    if e.name == "VIPS_INTERPRETATION_LABS" then "Labs" else env.classCase(e.nick)
  }

  /** The member line of an entry in the generated `enum`. */
  function EntryMember(e: Enumeration, env: Env): string {
    EntryIdent(e, env) + " = " + IntToString(e.value) + ","
  }

  /** `Enumeration::code`: the entry's doc line, then `Ident = value,`. */
  function EntryCode(e: Enumeration, env: Env): string {
    EntryDoc(e, env) + "\n" + EntryMember(e, env)
  }

  /** The doc line of an entry inside a parameter's documentation, marked when the
      entry is the default. */
  function EntryDocLine(e: Enumeration, default: i32, env: Env): string {
    if e.value == default then EntryDoc(e, env) + " [DEFAULT]" else EntryDoc(e, env)
  }

  function EntryDocLines(entries: seq<Enumeration>, default: i32, env: Env): (r: seq<string>)
    ensures |r| == |entries|
    ensures forall i :: 0 <= i < |entries| ==> r[i] == EntryDocLine(entries[i], default, env)
  {
    if |entries| == 0 then [] else [EntryDocLine(entries[0], default, env)] + EntryDocLines(entries[1..], default, env)
  }

  function EntryCodes(entries: seq<Enumeration>, env: Env): (r: seq<string>)
    ensures |r| == |entries|
    ensures forall i :: 0 <= i < |entries| ==> r[i] == EntryCode(entries[i], env)
  {
    if |entries| == 0 then [] else [EntryCode(entries[0], env)] + EntryCodes(entries[1..], env)
  }

  function RangeDoc(min: string, max: string, default: string): string {
    "/// min: " + min + ", max: " + max + ", default: " + default
  }

  /** `ParamType::doc`: the range and default of a number, the default of a flag,
      one line per entry of an enumeration, and nothing for the other kinds. */
  function TypeDoc(t: ParamType, env: Env): string {
    match t
    case Int(mn, mx, d) => RangeDoc(IntToString(mn), IntToString(mx), IntToString(d))
    case UInt(mn, mx, d) => RangeDoc(IntToString(mn), IntToString(mx), IntToString(d))
    case Double(mn, mx, d) => RangeDoc(mn, mx, d)
    case Bool(d) => "/// default: " + BoolText(d)
    case Enum(_, entries, d) => Join(EntryDocLines(entries, d, env), "\n")
    case _ => ""
  }

  /** `ParamType::enumeration`: the `enum` declaration of an enumeration kind, one
      entry per line pair; the empty text for every other kind. */
  function EnumerationText(t: ParamType, env: Env): string {
    match t
    case Enum(name, entries, _) =>
      var derive := Indent(16) + "#[derive(Copy, Clone, Debug, FromPrimitive)]" + Indent(16);
      var body := Indent(20) + Join(EntryCodes(entries, env), "\n") + Indent(16) + "}" + Indent(16);
      derive + ("pub enum " + EnumName(name) + " {") + body
    case _ => ""
  }

  predicate NoLineFeed(s: string) {
    '\n' !in s
  }

  /** Where the kind's documentation is empty, `Parameter::doc` adds no line: that
      happens exactly for the kinds without range, default or entries. */
  lemma {:induction false} TypeDocEmpty(t: ParamType, env: Env)
    ensures TypeDoc(t, env) == "" <==>
      !(t.Int? || t.UInt? || t.Double? || t.Bool? || (t.Enum? && |t.entries| > 0))
  {
    if t.Enum? && |t.entries| > 0 {
      var lines := EntryDocLines(t.entries, t.edefault, env);
      JoinNonEmpty(lines, "\n");
    }
  }

  lemma {:induction false} JoinNonEmpty(parts: seq<string>, sep: string)
    requires |parts| > 0 && parts[0] != ""
    ensures Join(parts, sep) != ""
  {
    if |parts| > 1 {
      assert Join(parts, sep) == parts[0] + sep + Join(parts[1..], sep);
      assert |Join(parts, sep)| >= |parts[0]|;
    }
  }

  /** The documentation of an enumeration kind, read line by line, is one line per
      entry in order, and a line carries the ` [DEFAULT]` mark exactly when its
      entry's value is the declared default. */
  lemma EnumDocLines(t: ParamType, env: Env)
    requires t.Enum? && |t.entries| > 0
    requires forall i :: 0 <= i < |t.entries| ==>
      NoLineFeed(env.classCase(t.entries[i].nick)) && NoLineFeed(t.entries[i].name)
    ensures |Split(TypeDoc(t, env), "\n")| == |t.entries|
    ensures forall i :: 0 <= i < |t.entries| ==>
      StartsWith(Split(TypeDoc(t, env), "\n")[i], EntryDoc(t.entries[i], env)) &&
      (EndsWith(Split(TypeDoc(t, env), "\n")[i], " [DEFAULT]") <==> t.entries[i].value == t.edefault)
  {
    var lines := EntryDocLines(t.entries, t.edefault, env);
    forall i | 0 <= i < |lines|
      ensures "\n"[0] !in lines[i]
    {
      EntryDocHasNoLineFeed(t.entries[i], t.edefault, env);
    }
    SplitJoin(lines, "\n");
    forall i | 0 <= i < |t.entries|
      ensures StartsWith(lines[i], EntryDoc(t.entries[i], env))
      ensures EndsWith(lines[i], " [DEFAULT]") <==> t.entries[i].value == t.edefault
    {
      EntryDocLineShape(t.entries[i], t.edefault, env);
    }
  }

  lemma EntryDocLineShape(e: Enumeration, default: i32, env: Env)
    ensures StartsWith(EntryDocLine(e, default, env), EntryDoc(e, env))
    ensures EndsWith(EntryDocLine(e, default, env), " [DEFAULT]") <==> e.value == default
  {
    var d := EntryDoc(e, env);
    assert (d + " [DEFAULT]")[..|d|] == d;
    if e.value != default {
      var v := IntToString(e.value);
      IntToStringShape(e.value);
      assert d[|d| - 1] == v[|v| - 1];
      if |d| >= 10 {
        assert d[|d| - 10..][9] == d[|d| - 1];
      }
    }
  }

  lemma EntryDocHasNoLineFeed(e: Enumeration, default: i32, env: Env)
    requires NoLineFeed(env.classCase(e.nick)) && NoLineFeed(e.name)
    ensures '\n' !in EntryDocLine(e, default, env)
  {
    IntToStringShape(e.value);
  }

  /** Only the enumeration kind declares a type, and it declares it under its
      `enum_name`. */
  lemma EnumerationDeclares(t: ParamType, env: Env)
    ensures EnumerationText(t, env) == "" <==> !t.Enum?
    ensures t.Enum? ==> Contains(EnumerationText(t, env), "pub enum " + EnumName(t.enumName) + " {")
  {
    if t.Enum? {
      var a := Indent(16) + "#[derive(Copy, Clone, Debug, FromPrimitive)]" + Indent(16);
      var sub := "pub enum " + EnumName(t.enumName) + " {";
      var b := Indent(20) + Join(EntryCodes(t.entries, env), "\n") + Indent(16) + "}" + Indent(16);
      ContainsMiddle(a, sub, b);
    }
  }

  /** The declaration of an enumeration kind, read line by line: the derive line,
      the `pub enum` header, then for every entry in order its doc line and its
      `Ident = value,` member line (the identifier `Labs` for
      `VIPS_INTERPRETATION_LABS`, the nick in class case otherwise), and the
      closing brace. The first entry's doc line keeps the template's indentation. */
  lemma EnumerationReadBack(t: ParamType, env: Env)
    requires t.Enum? && NoLineFeed(t.enumName)
    requires forall i :: 0 <= i < |t.entries| ==>
      NoLineFeed(env.classCase(t.entries[i].nick)) && NoLineFeed(t.entries[i].name)
    ensures var lines := Split(EnumerationText(t, env), "\n"); var n := |t.entries|;
      |lines| == (if n == 0 then 6 else 2 * n + 5) &&
      lines[0] == "" &&
      lines[1] == Spaces(16) + "#[derive(Copy, Clone, Debug, FromPrimitive)]" &&
      lines[2] == Spaces(16) + "pub enum " + EnumName(t.enumName) + " {" &&
      lines[|lines| - 2] == Spaces(16) + "}" &&
      lines[|lines| - 1] == Spaces(16)
    ensures var lines := Split(EnumerationText(t, env), "\n"); var n := |t.entries|;
      n > 0 ==> lines[3] == Spaces(20) + EntryDoc(t.entries[0], env)
    ensures var lines := Split(EnumerationText(t, env), "\n"); var n := |t.entries|;
      forall i :: 0 < i < n ==> lines[3 + 2 * i] == EntryDoc(t.entries[i], env)
    ensures var lines := Split(EnumerationText(t, env), "\n"); var n := |t.entries|;
      forall i :: 0 <= i < n ==>
        lines[4 + 2 * i] ==
        (if t.entries[i].name == "VIPS_INTERPRETATION_LABS" then "Labs" else env.classCase(t.entries[i].nick)) +
        " = " + IntToString(t.entries[i].value) + ","
  {
    var es := t.entries;
    var lines := Split(EnumerationText(t, env), "\n");
    var entryLines := EnumerationLines(t, env);
    HeaderRegroup(Spaces(16), EnumName(t.enumName));
    var derive := Spaces(16) + "#[derive(Copy, Clone, Debug, FromPrimitive)]";
    var header := Spaces(16) + ("pub enum " + EnumName(t.enumName) + " {");
    var close := Spaces(16) + "}";
    FrameLines(lines, "", derive, header, entryLines, close, Spaces(16));
    if |es| > 0 {
      var docs, members := EntryDocs(es, env), EntryMembers(es, env);
      InterleavedLines(lines, "", derive, header, Spaces(20) + docs[0], docs, members, close, Spaces(16));
    }
  }

  /** The lines of an enumeration's declaration: the first three, those of the
      entries, then the closing brace and the trailing indentation. */
  lemma EnumerationLines(t: ParamType, env: Env) returns (entryLines: seq<string>)
    requires t.Enum? && NoLineFeed(t.enumName)
    requires forall i :: 0 <= i < |t.entries| ==>
      NoLineFeed(env.classCase(t.entries[i].nick)) && NoLineFeed(t.entries[i].name)
    ensures |t.entries| == 0 ==> entryLines == [Spaces(20)]
    ensures |t.entries| > 0 ==>
      entryLines == [Spaces(20) + EntryDocs(t.entries, env)[0]] + Interleave(EntryDocs(t.entries, env), EntryMembers(t.entries, env))[1..]
    ensures Split(EnumerationText(t, env), "\n") ==
      ["", Spaces(16) + "#[derive(Copy, Clone, Debug, FromPrimitive)]", Spaces(16) + ("pub enum " + EnumName(t.enumName) + " {")] +
      entryLines + [Spaces(16) + "}", Spaces(16)]
  {
    var es := t.entries;
    var close := Spaces(16) + "}";
    var last := Spaces(16);
    var tail := [close, last];
    var rest := close + "\n" + last;
    SpacesHaveNoLineFeed(16);
    SpacesHaveNoLineFeed(20);
    ClosingLines(close, last);
    var derive := Spaces(16) + "#[derive(Copy, Clone, Debug, FromPrimitive)]";
    var header := Spaces(16) + ("pub enum " + EnumName(t.enumName) + " {");
    var j := Join(EntryCodes(es, env), "\n");
    var body := (Spaces(20) + j) + "\n" + rest;
    if |es| == 0 {
      assert Spaces(20) + j == Spaces(20);
      SplitLine(Spaces(20), rest, tail);
      entryLines := [Spaces(20)];
    } else {
      entryLines := FirstEntryLines(es, env);
      SplitJoinedThen(entryLines, rest, tail);
    }
    EnumerationLayout(t, env);
    NoLineFeedIn(derive, header, t, env);
    SplitPrefixLines(derive, header, body, entryLines + tail);
  }

  /** Every entry's doc line, in order. */
  function EntryDocs(es: seq<Enumeration>, env: Env): (r: seq<string>)
    ensures |r| == |es| && forall i :: 0 <= i < |es| ==> r[i] == EntryDoc(es[i], env)
  {
    if |es| == 0 then [] else [EntryDoc(es[0], env)] + EntryDocs(es[1..], env)
  }

  /** Every entry's member line, in order. */
  function EntryMembers(es: seq<Enumeration>, env: Env): (r: seq<string>)
    ensures |r| == |es| && forall i :: 0 <= i < |es| ==> r[i] == EntryMember(es[i], env)
  {
    if |es| == 0 then [] else [EntryMember(es[0], env)] + EntryMembers(es[1..], env)
  }

  /** The entries' lines joined by line feeds, the first doc line behind the
      template's indentation. */
  lemma {:induction false} FirstEntryLines(es: seq<Enumeration>, env: Env) returns (lines: seq<string>)
    requires |es| > 0
    requires forall i :: 0 <= i < |es| ==> NoLineFeed(env.classCase(es[i].nick)) && NoLineFeed(es[i].name)
    ensures lines == [Spaces(20) + EntryDocs(es, env)[0]] + Interleave(EntryDocs(es, env), EntryMembers(es, env))[1..]
    ensures Spaces(20) + Join(EntryCodes(es, env), "\n") == Join(lines, "\n")
    ensures forall i :: 0 <= i < |lines| ==> '\n' !in lines[i]
  {
    var docs, members := EntryDocs(es, env), EntryMembers(es, env);
    var pairs := Interleave(docs, members);
    CodesAreDocsAndMembers(es, env);
    JoinInterleave(EntryCodes(es, env), docs, members);
    EntryLinesFree(es, env);
    InterleaveHasNoLineFeed(docs, members);
    InterleaveIndex(docs, members);
    JoinPrefix(Spaces(20), pairs, "\n");
    lines := [Spaces(20) + docs[0]] + pairs[1..];
    SpacesHaveNoLineFeed(20);
    PrefixedFirstFree(Spaces(20), docs[0], pairs, lines);
  }

  lemma PrefixedFirstFree(p: string, d: string, pairs: seq<string>, lines: seq<string>)
    requires '\n' !in p && '\n' !in d && |pairs| > 0
    requires forall k :: 0 <= k < |pairs| ==> '\n' !in pairs[k]
    requires lines == [p + d] + pairs[1..]
    ensures forall i :: 0 <= i < |lines| ==> '\n' !in lines[i]
  {
    forall i | 0 <= i < |lines|
      ensures '\n' !in lines[i]
    {
      if i > 0 {
        assert lines[i] == pairs[i];
      }
    }
  }

  lemma CodesAreDocsAndMembers(es: seq<Enumeration>, env: Env)
    ensures forall i :: 0 <= i < |es| ==>
      EntryCodes(es, env)[i] == EntryDocs(es, env)[i] + "\n" + EntryMembers(es, env)[i]
  {
  }

  lemma EntryLinesFree(es: seq<Enumeration>, env: Env)
    requires forall i :: 0 <= i < |es| ==> NoLineFeed(env.classCase(es[i].nick)) && NoLineFeed(es[i].name)
    ensures forall i :: 0 <= i < |es| ==> '\n' !in EntryDocs(es, env)[i] && '\n' !in EntryMembers(es, env)[i]
  {
    forall i | 0 <= i < |es|
      ensures '\n' !in EntryDocs(es, env)[i] && '\n' !in EntryMembers(es, env)[i]
    {
      EntryLinesHaveNoLineFeed(es[i], env);
    }
  }

  /** The lines of a declaration whose entries' lines interleave doc and member
      lines, the first doc line replaced by `first`. */
  lemma InterleavedLines<T>(lines: seq<T>, a: T, b: T, c: T, first: T, docs: seq<T>, members: seq<T>, x: T, y: T)
    requires 0 < |docs| == |members|
    requires lines == [a, b, c] + ([first] + Interleave(docs, members)[1..]) + [x, y]
    ensures |lines| == 2 * |docs| + 5
    ensures lines[3] == first
    ensures forall i :: 0 < i < |docs| ==> lines[3 + 2 * i] == docs[i]
    ensures forall i :: 0 <= i < |docs| ==> lines[4 + 2 * i] == members[i]
  {
    var pairs := Interleave(docs, members);
    InterleaveIndex(docs, members);
    forall i | 0 <= i < |docs|
      ensures 0 < i ==> lines[3 + 2 * i] == docs[i]
      ensures lines[4 + 2 * i] == members[i]
    {
      if 0 < i {
        assert lines[3 + 2 * i] == pairs[2 * i];
      }
      assert lines[4 + 2 * i] == pairs[2 * i + 1];
    }
  }

  lemma HeaderRegroup(x: string, e: string)
    ensures x + ("pub enum " + e + " {") == x + "pub enum " + e + " {"
  {
  }

  lemma ClosingLines(close: string, last: string)
    requires '\n' !in close && '\n' !in last
    ensures Split(close + "\n" + last, "\n") == [close, last]
  {
    FindAbsent(last, "\n");
    SplitLine(close, last, [last]);
  }

  lemma SplitPrefixLines(derive: string, header: string, body: string, pieces: seq<string>)
    requires '\n' !in derive && '\n' !in header && Split(body, "\n") == pieces
    ensures Split("" + "\n" + (derive + "\n" + (header + "\n" + body)), "\n") == ["", derive, header] + pieces
  {
    SplitLine(header, body, pieces);
    SplitLine(derive, header + "\n" + body, [header] + pieces);
    SplitLine("", derive + "\n" + (header + "\n" + body), [derive, header] + pieces);
  }

  lemma EnumerationLayout(t: ParamType, env: Env)
    requires t.Enum?
    ensures EnumerationText(t, env) ==
      "" + "\n" + ((Spaces(16) + "#[derive(Copy, Clone, Debug, FromPrimitive)]") + "\n" +
        ((Spaces(16) + ("pub enum " + EnumName(t.enumName) + " {")) + "\n" +
          ((Spaces(20) + Join(EntryCodes(t.entries, env), "\n")) + "\n" + ((Spaces(16) + "}") + "\n" + Spaces(16)))))
  {
    var x, z := Spaces(16), Spaces(20);
    var d := "#[derive(Copy, Clone, Debug, FromPrimitive)]";
    var h := "pub enum " + EnumName(t.enumName) + " {";
    var j := Join(EntryCodes(t.entries, env), "\n");
    assert EnumerationText(t, env) == ("\n" + x) + d + ("\n" + x) + h + (("\n" + z) + j + ("\n" + x) + "}" + ("\n" + x));
    Regroup(x, d, h, z, j);
  }

  /** The concatenation of the declaration template, regrouped line by line. */
  lemma Regroup(x: string, d: string, h: string, z: string, j: string)
    ensures ("\n" + x) + d + ("\n" + x) + h + (("\n" + z) + j + ("\n" + x) + "}" + ("\n" + x)) ==
      "" + "\n" + ((x + d) + "\n" + ((x + h) + "\n" + ((z + j) + "\n" + ((x + "}") + "\n" + x))))
  {
    var tail := (x + "}") + "\n" + x;
    assert ("\n" + x) + "}" + ("\n" + x) == "\n" + tail;
    var body := (z + j) + "\n" + tail;
    assert ("\n" + z) + j + ("\n" + x) + "}" + ("\n" + x) == "\n" + body;
    assert ("\n" + x) + d + ("\n" + x) + h == "\n" + (x + d) + "\n" + (x + h);
  }

  lemma NoLineFeedIn(derive: string, header: string, t: ParamType, env: Env)
    requires t.Enum? && NoLineFeed(t.enumName)
    requires derive == Spaces(16) + "#[derive(Copy, Clone, Debug, FromPrimitive)]"
    requires header == Spaces(16) + ("pub enum " + EnumName(t.enumName) + " {")
    ensures '\n' !in derive && '\n' !in header
  {
    var e := EnumName(t.enumName);
    SpacesHaveNoLineFeed(16);
    EnumNameNoLineFeed(t.enumName);
    DeclarationLiteralsFree();
    FreeConcat(Spaces(16), "#[derive(Copy, Clone, Debug, FromPrimitive)]");
    FreeConcat("pub enum ", e);
    FreeConcat("pub enum " + e, " {");
    FreeConcat(Spaces(16), "pub enum " + e + " {");
  }

  lemma DeclarationLiteralsFree()
    ensures '\n' !in "#[derive(Copy, Clone, Debug, FromPrimitive)]"
    ensures '\n' !in "pub enum " && '\n' !in " {"
  {
  }

  lemma SpacesHaveNoLineFeed(n: nat)
    ensures '\n' !in Spaces(n)
  {
    assert forall i :: 0 <= i < n ==> Spaces(n)[i] == ' ';
  }

  lemma EntryLinesHaveNoLineFeed(e: Enumeration, env: Env)
    requires NoLineFeed(env.classCase(e.nick)) && NoLineFeed(e.name)
    ensures '\n' !in EntryDoc(e, env) && '\n' !in EntryMember(e, env)
  {
    IntToStringShape(e.value);
  }

  /** The lines around the entries' lines. */
  lemma FrameLines<T>(lines: seq<T>, a: T, b: T, c: T, e: seq<T>, x: T, y: T)
    requires lines == [a, b, c] + e + [x, y]
    ensures |lines| == |e| + 5
    ensures lines[0] == a && lines[1] == b && lines[2] == c
    ensures lines[|lines| - 2] == x && lines[|lines| - 1] == y
  {
  }
}
