/** The catalogue as the introspection program prints it, and the round trip: what
    `parse_output` reads back from a printed catalogue. The printer follows
    `generator/introspect.c`: an operation is `OPERATION:`, its `nickname:TypeName`
    line and its summary, then `REQUIRED:` and `OPTIONAL:`, each followed by its
    arguments; an argument is `PARAM:`, its name (after `OUTPUT:` for an output),
    nick, blurb and type tag lines. */
module Catalogue {
  import opened Base
  import opened Text
  import opened Foreign
  import opened Types
  import opened Parser

  /** An entry of an enumeration or flags type: `value:nick:name`. */
  datatype EntrySpec = EntrySpec(value: i32, nick: string, name: string)

  /** The type of an argument, as the introspection program classifies it. Doubles
      hold the texts that `%g` prints. */
  datatype Tag =
    | StringTag
    | ImageTag
    | BlobTag
    | InterpolateTag(description: string)
    | BoolTag(bdefault: bool)
    | IntTag(imin: i32, imax: i32, idefault: i32)
    | UInt64Tag(umin: u64, umax: u64, udefault: u64)
    | DoubleTag(dmin: string, dmax: string, ddefault: string)
    | EnumTag(isFlags: bool, typeName: string, entries: seq<EntrySpec>, edefault: i32)
    | ArrayIntTag
    | ArrayDoubleTag
    | ArrayImagesTag
    | ByteDataTag

  datatype Argument = Argument(isOutput: bool, name: string, nick: string, blurb: string, tag: Tag)

  datatype OperationSpec = OperationSpec(
    nickname: string,
    typeName: string,
    summary: string,
    required: seq<Argument>,
    optional: seq<Argument>)

  // ---------------------------------------------------------------------------
  // Printing

  function EntryLine(e: EntrySpec): string {
    Join([IntToString(e.value), e.nick, e.name], ":")
  }

  function EntryLinesOf(entries: seq<EntrySpec>): (r: seq<string>)
    ensures |r| == |entries|
    ensures forall i :: 0 <= i < |entries| ==> r[i] == EntryLine(entries[i])
  {
    if |entries| == 0 then [] else [EntryLine(entries[0])] + EntryLinesOf(entries[1..])
  }

  /** The lines that `show_argument` prints for a type. */
  function TagLines(t: Tag): (r: seq<string>)
    ensures |r| > 0
  {
    match t
    case StringTag => ["string"]
    case ImageTag => ["VipsImage"]
    case BlobTag => ["VipsBlob"]
    case InterpolateTag(d) => ["VipsInterpolate-" + d]
    case BoolTag(b) => ["bool:" + (if b then "1" else "0")]
    case IntTag(mn, mx, d) => [Join(["int", IntToString(mn), IntToString(mx), IntToString(d)], ":")]
    case UInt64Tag(mn, mx, d) => [Join(["uint64", IntToString(mn), IntToString(mx), IntToString(d)], ":")]
    case DoubleTag(mn, mx, d) => [Join(["double", mn, mx, d], ":")]
    case EnumTag(flags, name, entries, d) =>
      [(if flags then "flags-" else "enum-") + name] + EntryLinesOf(entries) + [IntToString(d)]
    case ArrayIntTag => ["array of int"]
    case ArrayDoubleTag => ["array of double"]
    case ArrayImagesTag => ["array of images"]
    case ByteDataTag => ["byte-data"]
  }

  function ArgumentLines(a: Argument): (r: seq<string>)
    ensures |r| >= 4
  {
    [(if a.isOutput then "OUTPUT:" else "") + a.name, a.nick, a.blurb] + TagLines(a.tag)
  }

  // ---------------------------------------------------------------------------
  // What the generator makes of a catalogue

  function EntryOf(e: EntrySpec): Enumeration {
    Enumeration(e.name, e.nick, e.value)
  }

  function EntriesOf(entries: seq<EntrySpec>): (r: seq<Enumeration>)
    ensures |r| == |entries|
    ensures forall i :: 0 <= i < |entries| ==> r[i] == EntryOf(entries[i])
  {
    if |entries| == 0 then [] else [EntryOf(entries[0])] + EntriesOf(entries[1..])
  }

  /** The fields of a tag that the printed line must keep apart: no separator inside
      a field, and doubles that Rust can parse. */
  predicate TagWellFormed(t: Tag, env: Env) {
    match t
    case DoubleTag(mn, mx, d) =>
      ':' !in mn && ':' !in mx && ':' !in d &&
      env.parseF64(mn).Some? && env.parseF64(mx).Some? && env.parseF64(d).Some?
    case EnumTag(_, name, entries, _) =>
      '-' !in name && forall i :: 0 <= i < |entries| ==> ':' !in entries[i].nick && ':' !in entries[i].name
    case _ => true
  }

  /** The kind that the generator gives a well-formed tag. */
  function KindOf(t: Tag, prev: Option<string>, env: Env): ParamType
    requires TagWellFormed(t, env)
  {
    match t
    case StringTag => Str
    case ImageTag => VipsImage(prev)
    case BlobTag => VipsBlob
    case InterpolateTag(_) => VipsInterpolate
    case BoolTag(b) => Bool(b)
    case IntTag(mn, mx, d) => Int(mn, mx, d)
    case UInt64Tag(mn, mx, d) => UInt(mn, mx, d)
    case DoubleTag(mn, mx, d) => Double(env.parseF64(mn).value, env.parseF64(mx).value, env.parseF64(d).value)
    case EnumTag(_, name, entries, d) => Enum(name, EntriesOf(entries), d)
    case ArrayIntTag => ArrayInt
    case ArrayDoubleTag => ArrayDouble
    case ArrayImagesTag => ArrayImage
    case ByteDataTag => ArrayByte
  }

  // ---------------------------------------------------------------------------
  // Reading a type back

  lemma SplitFields(parts: seq<string>)
    requires |parts| > 0 && forall i :: 0 <= i < |parts| ==> ':' !in parts[i]
    ensures Split(Join(parts, ":"), ":") == parts
  {
    SplitJoin(parts, ":");
  }

  lemma NumberFields(a: string, x: int, y: int, z: int)
    requires ':' !in a
    ensures Split(Join([a, IntToString(x), IntToString(y), IntToString(z)], ":"), ":") ==
            [a, IntToString(x), IntToString(y), IntToString(z)]
  {
    IntToStringShape(x);
    IntToStringShape(y);
    IntToStringShape(z);
    SplitFields([a, IntToString(x), IntToString(y), IntToString(z)]);
  }

  lemma {:induction false} EntriesRoundTrip(entries: seq<EntrySpec>)
    requires forall i :: 0 <= i < |entries| ==> ':' !in entries[i].nick && ':' !in entries[i].name
    ensures EnumEntries(EntryLinesOf(entries)) == Ok(EntriesOf(entries))
    decreases |entries|
  {
    if |entries| > 0 {
      var e := entries[0];
      IntToStringShape(e.value);
      SplitFields([IntToString(e.value), e.nick, e.name]);
      IntToStringRoundTrip(e.value);
      assert ParseI32(IntToString(e.value)) == Some(e.value);
      assert EnumEntry(EntryLine(e)) == Ok(EntryOf(e));
      EntriesRoundTrip(entries[1..]);
      assert EntryLinesOf(entries)[1..] == EntryLinesOf(entries[1..]);
    }
  }

  lemma FixedTagOfEnum(tag: string, head: string, prev: Option<string>, env: Env)
    requires head == "enum-" || head == "flags-"
    requires StartsWith(tag, head)
    ensures FixedTag(tag, prev, env) == None && IsEnumTag(tag)
  {
    assert tag[0] == head[0];
    NoFixedPrefix(tag, prev, env);
    assert tag[..|head|] == head;
    if head == "enum-" {
      assert tag[..4] == tag[..5][..4] == "enum";
    } else {
      assert tag[..5] == tag[..6][..5] == "flags";
    }
  }

  /** No fixed tag starts with `e` or `f`. */
  lemma NoFixedPrefix(tag: string, prev: Option<string>, env: Env)
    requires |tag| > 0 && (tag[0] == 'e' || tag[0] == 'f')
    ensures FixedTag(tag, prev, env) == None
  {
    DiffersAt(tag, "string", 0);
    DiffersAt(tag, "VipsImage", 0);
    DiffersAt(tag, "VipsBlob", 0);
    DiffersAt(tag, "VipsInterpolate", 0);
    DiffersAt(tag, "bool", 0);
    DiffersAt(tag, "int", 0);
    DiffersAt(tag, "double", 0);
    DiffersAt(tag, "uint64", 0);
    DiffersAt(tag, "byte-data", 0);
    DiffersAt(tag, "array of int", 0);
    DiffersAt(tag, "array of double", 0);
    DiffersAt(tag, "array of images", 0);
  }

  lemma EnumHeadSplit(isFlags: bool, name: string)
    requires '-' !in name
    ensures Split((if isFlags then "flags-" else "enum-") + name, "-") ==
            [if isFlags then "flags" else "enum", name]
  {
    var word := if isFlags then "flags" else "enum";
    assert (if isFlags then "flags-" else "enum-") + name == word + "-" + name;
    FindAbsent(word, "-");
    FindAbsent(name, "-");
    SplitFirstPiece(word, "-", name);
  }

  lemma EnumBlockShape(first: seq<string>, t: Tag)
    requires |first| == 3 && t.EnumTag?
    ensures var block := first + TagLines(t);
      |block| == 5 + |t.entries| &&
      block[3] == (if t.isFlags then "flags-" else "enum-") + t.typeName &&
      EntryLines(block) == EntryLinesOf(t.entries) &&
      block[|block| - 1] == IntToString(t.edefault)
  {
    var head := (if t.isFlags then "flags-" else "enum-") + t.typeName;
    assert TagLines(t) == [head] + EntryLinesOf(t.entries) + [IntToString(t.edefault)];
    BlockLayout(first, head, EntryLinesOf(t.entries), IntToString(t.edefault));
  }

  lemma BlockLayout(first: seq<string>, head: string, lines: seq<string>, last: string)
    requires |first| == 3
    ensures var block := first + ([head] + lines + [last]);
      |block| == 5 + |lines| && block[3] == head && EntryLines(block) == lines && block[|block| - 1] == last
  {
    var block := first + ([head] + lines + [last]);
    if |block| > 5 {
      assert block[4..|block| - 1] == lines;
    }
  }

  lemma EnumTagRoundTrip(first: seq<string>, t: Tag, prev: Option<string>, env: Env)
    requires |first| == 3 && t.EnumTag? && TagWellFormed(t, env)
    ensures TypeOf(first + TagLines(t), prev, env) == Ok(KindOf(t, prev, env))
  {
    var block := first + TagLines(t);
    var head := if t.isFlags then "flags-" else "enum-";
    EnumBlockShape(first, t);
    var tag := block[3];
    assert tag[..|head|] == head;
    FixedTagOfEnum(tag, head, prev, env);
    EnumHeadSplit(t.isFlags, t.typeName);
    EntriesRoundTrip(t.entries);
    IntToStringRoundTrip(t.edefault);
    assert ParseI32(block[|block| - 1]) == Some(t.edefault);
    assert EnumKind(block) == Ok(KindOf(t, prev, env));
  }

  lemma StringTagRead(prev: Option<string>, env: Env)
    ensures FixedTag("string", prev, env) == Some(Ok(Str))
  {
    var tag := "string";
    assert tag[..6] == "string";
  }

  lemma ImageTagRead(prev: Option<string>, env: Env)
    ensures FixedTag("VipsImage", prev, env) == Some(Ok(VipsImage(prev)))
  {
    var tag := "VipsImage";
    DiffersAt(tag, "string", 0);
    assert tag[..9] == "VipsImage";
  }

  lemma BlobTagRead(prev: Option<string>, env: Env)
    ensures FixedTag("VipsBlob", prev, env) == Some(Ok(VipsBlob))
  {
    var tag := "VipsBlob";
    DiffersAt(tag, "string", 0);
    DiffersAt(tag, "VipsImage", 4);
    assert tag[..8] == "VipsBlob";
  }

  lemma ByteDataTagRead(prev: Option<string>, env: Env)
    ensures FixedTag("byte-data", prev, env) == Some(Ok(ArrayByte))
  {
    var tag := "byte-data";
    DiffersAt(tag, "string", 0);
    DiffersAt(tag, "VipsImage", 0);
    DiffersAt(tag, "VipsBlob", 0);
    DiffersAt(tag, "VipsInterpolate", 0);
    DiffersAt(tag, "bool", 1);
    DiffersAt(tag, "int", 0);
    DiffersAt(tag, "double", 0);
    DiffersAt(tag, "uint64", 0);
    assert tag[..9] == "byte-data";
  }

  lemma ArrayIntTagRead(prev: Option<string>, env: Env)
    ensures FixedTag("array of int", prev, env) == Some(Ok(ArrayInt))
  {
    var tag := "array of int";
    DiffersAt(tag, "string", 0);
    DiffersAt(tag, "VipsImage", 0);
    DiffersAt(tag, "VipsBlob", 0);
    DiffersAt(tag, "VipsInterpolate", 0);
    DiffersAt(tag, "bool", 0);
    DiffersAt(tag, "int", 0);
    DiffersAt(tag, "double", 0);
    DiffersAt(tag, "uint64", 0);
    DiffersAt(tag, "byte-data", 0);
    assert tag[..12] == "array of int";
  }

  lemma ArrayDoubleTagRead(prev: Option<string>, env: Env)
    ensures FixedTag("array of double", prev, env) == Some(Ok(ArrayDouble))
  {
    var tag := "array of double";
    DiffersAt(tag, "string", 0);
    DiffersAt(tag, "VipsImage", 0);
    DiffersAt(tag, "VipsBlob", 0);
    DiffersAt(tag, "VipsInterpolate", 0);
    DiffersAt(tag, "bool", 0);
    DiffersAt(tag, "int", 0);
    DiffersAt(tag, "double", 0);
    DiffersAt(tag, "uint64", 0);
    DiffersAt(tag, "byte-data", 0);
    DiffersAt(tag, "array of int", 9);
    assert tag[..15] == "array of double";
  }

  lemma ArrayImagesTagRead(prev: Option<string>, env: Env)
    ensures FixedTag("array of images", prev, env) == Some(Ok(ArrayImage))
  {
    var tag := "array of images";
    DiffersAt(tag, "string", 0);
    DiffersAt(tag, "VipsImage", 0);
    DiffersAt(tag, "VipsBlob", 0);
    DiffersAt(tag, "VipsInterpolate", 0);
    DiffersAt(tag, "bool", 0);
    DiffersAt(tag, "int", 0);
    DiffersAt(tag, "double", 0);
    DiffersAt(tag, "uint64", 0);
    DiffersAt(tag, "byte-data", 0);
    DiffersAt(tag, "array of int", 10);
    DiffersAt(tag, "array of double", 9);
    assert tag[..15] == "array of images";
  }

  lemma InterpolateTagRead(d: string, prev: Option<string>, env: Env)
    ensures FixedTag("VipsInterpolate-" + d, prev, env) == Some(Ok(VipsInterpolate))
  {
    var tag := "VipsInterpolate-" + d;
    DiffersAt(tag, "string", 0);
    DiffersAt(tag, "VipsImage", 5);
    DiffersAt(tag, "VipsBlob", 4);
    assert tag[..15] == "VipsInterpolate";
  }

  lemma PlainTagRoundTrip(t: Tag, prev: Option<string>, env: Env)
    requires t.StringTag? || t.ImageTag? || t.BlobTag? || t.InterpolateTag? || t.ByteDataTag? ||
             t.ArrayIntTag? || t.ArrayDoubleTag? || t.ArrayImagesTag?
    ensures FixedTag(TagLines(t)[0], prev, env) == Some(Ok(KindOf(t, prev, env)))
  {
    match t
    case StringTag => StringTagRead(prev, env);
    case ImageTag => ImageTagRead(prev, env);
    case BlobTag => BlobTagRead(prev, env);
    case InterpolateTag(d) => InterpolateTagRead(d, prev, env);
    case ByteDataTag => ByteDataTagRead(prev, env);
    case ArrayIntTag => ArrayIntTagRead(prev, env);
    case ArrayDoubleTag => ArrayDoubleTagRead(prev, env);
    case ArrayImagesTag => ArrayImagesTagRead(prev, env);
  }

  lemma BoolTagRead(b: bool, prev: Option<string>, env: Env)
    ensures FixedTag("bool:" + (if b then "1" else "0"), prev, env) == Some(Ok(Bool(b)))
  {
    var digit := if b then "1" else "0";
    var tag := "bool:" + digit;
    DiffersAt(tag, "string", 0);
    DiffersAt(tag, "VipsImage", 0);
    DiffersAt(tag, "VipsBlob", 0);
    DiffersAt(tag, "VipsInterpolate", 0);
    assert tag[..4] == "bool";
    assert tag == Join(["bool", digit], ":");
    SplitFields(["bool", digit]);
  }

  lemma IntTagRead(mn: i32, mx: i32, d: i32, prev: Option<string>, env: Env)
    ensures FixedTag(Join(["int", IntToString(mn), IntToString(mx), IntToString(d)], ":"), prev, env) == Some(Ok(Int(mn, mx, d)))
  {
    var tag := Join(["int", IntToString(mn), IntToString(mx), IntToString(d)], ":");
    assert tag[..4] == "int:";
    DiffersAt(tag, "string", 0);
    DiffersAt(tag, "VipsImage", 0);
    DiffersAt(tag, "VipsBlob", 0);
    DiffersAt(tag, "VipsInterpolate", 0);
    DiffersAt(tag, "bool", 0);
    NumberFields("int", mn, mx, d);
    ParseI32RoundTrip(mn);
    ParseI32RoundTrip(mx);
    ParseI32RoundTrip(d);
  }

  lemma UInt64TagRead(mn: u64, mx: u64, d: u64, prev: Option<string>, env: Env)
    ensures FixedTag(Join(["uint64", IntToString(mn), IntToString(mx), IntToString(d)], ":"), prev, env) == Some(Ok(UInt(mn, mx, d)))
  {
    var tag := Join(["uint64", IntToString(mn), IntToString(mx), IntToString(d)], ":");
    assert tag[..7] == "uint64:";
    DiffersAt(tag, "string", 0);
    DiffersAt(tag, "VipsImage", 0);
    DiffersAt(tag, "VipsBlob", 0);
    DiffersAt(tag, "VipsInterpolate", 0);
    DiffersAt(tag, "bool", 0);
    DiffersAt(tag, "int", 0);
    DiffersAt(tag, "double", 0);
    NumberFields("uint64", mn, mx, d);
    ParseU64RoundTrip(mn);
    ParseU64RoundTrip(mx);
    ParseU64RoundTrip(d);
  }

  lemma DoubleTagRead(t: Tag, prev: Option<string>, env: Env)
    requires t.DoubleTag? && TagWellFormed(t, env)
    ensures FixedTag(Join(["double", t.dmin, t.dmax, t.ddefault], ":"), prev, env) == Some(Ok(KindOf(t, prev, env)))
  {
    var tag := Join(["double", t.dmin, t.dmax, t.ddefault], ":");
    assert tag[..7] == "double:";
    DiffersAt(tag, "string", 0);
    DiffersAt(tag, "VipsImage", 0);
    DiffersAt(tag, "VipsBlob", 0);
    DiffersAt(tag, "VipsInterpolate", 0);
    DiffersAt(tag, "bool", 0);
    DiffersAt(tag, "int", 0);
    SplitFields(["double", t.dmin, t.dmax, t.ddefault]);
  }

  lemma NumberTagRoundTrip(t: Tag, prev: Option<string>, env: Env)
    requires t.BoolTag? || t.IntTag? || t.UInt64Tag? || t.DoubleTag?
    requires TagWellFormed(t, env)
    ensures FixedTag(TagLines(t)[0], prev, env) == Some(Ok(KindOf(t, prev, env)))
  {
    match t
    case BoolTag(b) => BoolTagRead(b, prev, env);
    case IntTag(mn, mx, d) => IntTagRead(mn, mx, d, prev, env);
    case UInt64Tag(mn, mx, d) => UInt64TagRead(mn, mx, d, prev, env);
    case DoubleTag(_, _, _) => DoubleTagRead(t, prev, env);
  }

  /** Every well-formed type tag that the introspection program prints is read back
      as the kind it describes. */
  lemma TagRoundTrip(first: seq<string>, t: Tag, prev: Option<string>, env: Env)
    requires |first| == 3 && TagWellFormed(t, env)
    ensures TypeOf(first + TagLines(t), prev, env) == Ok(KindOf(t, prev, env))
  {
    var block := first + TagLines(t);
    assert block[3] == TagLines(t)[0];
    if t.EnumTag? {
      EnumTagRoundTrip(first, t, prev, env);
    } else if t.BoolTag? || t.IntTag? || t.UInt64Tag? || t.DoubleTag? {
      NumberTagRoundTrip(t, prev, env);
    } else {
      PlainTagRoundTrip(t, prev, env);
    }
  }

  // ---------------------------------------------------------------------------
  // Reading an argument back

  /** The parameter that the generator makes of an argument read at `order` with
      back-reference `prev`. */
  function ExpectedParam(a: Argument, order: u8, prev: Option<string>, env: Env): Parameter
    requires TagWellFormed(a.tag, env)
  {
    var vipsName := if a.name == "in" || a.name == "ref" then a.name + "p" else a.name;
    Parameter(order, env.snakeCase(vipsName), vipsName, env.classCase(a.nick), a.blurb, KindOf(a.tag, prev, env))
  }

  /** A printed argument is read back as the parameter it describes. */
  lemma ArgumentRoundTrip(a: Argument, order: u8, prev: Option<string>, env: Env)
    requires TagWellFormed(a.tag, env) && Find(a.name, "OUTPUT:") == None
    ensures Param(ArgumentLines(a), order, prev, env) == Ok(Parsed(a.isOutput, ExpectedParam(a, order, prev, env)))
  {
    var first := [(if a.isOutput then "OUTPUT:" else "") + a.name, a.nick, a.blurb];
    var block := ArgumentLines(a);
    assert block == first + TagLines(a.tag);
    TagRoundTrip(first, a.tag, prev, env);
    assert block == [first[0], a.nick, a.blurb, TagLines(a.tag)[0]] + TagLines(a.tag)[1..];
    ParamNames(a.name, a.isOutput, a.nick, a.blurb, TagLines(a.tag)[0], TagLines(a.tag)[1..], order, prev, env);
  }

  // ---------------------------------------------------------------------------
  // Reading the arguments of an operation back

  predicate ArgumentsWellFormed(args: seq<Argument>, env: Env) {
    forall i :: 0 <= i < |args| ==> TagWellFormed(args[i].tag, env) && Find(args[i].name, "OUTPUT:") == None
  }

  /** The back-reference of the argument in position `i`: the Rust name of the
      first argument, when that is an input array of images and `i` is 1. */
  function PrevAt(args: seq<Argument>, i: nat, env: Env): Option<string>
    requires 0 < |args|
  {
    var a := args[0];
    if i == 1 && !a.isOutput && a.tag.ArrayImagesTag? then
      Some(env.snakeCase(if a.name == "in" || a.name == "ref" then a.name + "p" else a.name))
    else None
  }

  function ExpectedAt(args: seq<Argument>, i: nat, env: Env): Parsed
    requires i < |args| && i < 256 && ArgumentsWellFormed(args, env)
  {
    Parsed(args[i].isOutput, ExpectedParam(args[i], i as u8, PrevAt(args, i, env), env))
  }

  /** The required arguments of a catalogue entry as the generator should see them:
      the argument in position `i` gets order `i`. */
  function ExpectedRequired(args: seq<Argument>, env: Env): (r: seq<Parsed>)
    requires |args| <= 256 && ArgumentsWellFormed(args, env)
    ensures |r| == |args|
    ensures forall i :: 0 <= i < |args| ==> r[i] == ExpectedAt(args, i, env)
  {
    seq(|args|, i requires 0 <= i < |args| => ExpectedAt(args, i, env))
  }

  /** The parameters of the outputs (or of the inputs), in order. */
  function Selected(ps: seq<Parsed>, outputs: bool): seq<Parameter>
    decreases |ps|
  {
    if |ps| == 0 then []
    else Selected(ps[..|ps| - 1], outputs) + (if ps[|ps| - 1].isOutput == outputs then [ps[|ps| - 1].param] else [])
  }

  /** Every selected parameter is that of some argument. */
  lemma {:induction false} SelectedFrom(ps: seq<Parsed>, outputs: bool)
    ensures forall p :: p in Selected(ps, outputs) ==> exists j :: 0 <= j < |ps| && ps[j].param == p
    decreases |ps|
  {
    if |ps| > 0 {
      var init := ps[..|ps| - 1];
      SelectedFrom(init, outputs);
      forall p | p in Selected(ps, outputs)
        ensures exists j :: 0 <= j < |ps| && ps[j].param == p
      {
        if p in Selected(init, outputs) {
          var j :| 0 <= j < |init| && init[j].param == p;
          assert ps[j] == init[j];
        } else {
          assert ps[|ps| - 1].param == p;
        }
      }
    }
  }

  /** The inputs and the outputs together are as many as the arguments. */
  lemma {:induction false} SelectedCount(ps: seq<Parsed>)
    ensures |Selected(ps, false)| + |Selected(ps, true)| == |ps|
    decreases |ps|
  {
    if |ps| > 0 {
      SelectedCount(ps[..|ps| - 1]);
    }
  }

  function BlocksOf(args: seq<Argument>): (r: seq<seq<string>>)
    ensures |r| == |args|
    ensures forall i :: 0 <= i < |args| ==> r[i] == ArgumentLines(args[i])
  {
    if |args| == 0 then [] else [ArgumentLines(args[0])] + BlocksOf(args[1..])
  }

  lemma SelectedStep(ps: seq<Parsed>, k: nat, outputs: bool)
    requires k < |ps|
    ensures Selected(ps[..k + 1], outputs) == Selected(ps[..k], outputs) + (if ps[k].isOutput == outputs then [ps[k].param] else [])
  {
    assert ps[..k + 1][..k] == ps[..k];
  }

  /** The state of the loop over the required arguments after `k` of them. */
  function CollectedAfter(args: seq<Argument>, k: nat, env: Env): Collected
    requires |args| <= 255 && ArgumentsWellFormed(args, env) && k <= |args|
  {
    var e := ExpectedRequired(args, env);
    Collected(Selected(e[..k], false), Selected(e[..k], true), k as u8)
  }

  lemma PrevAtCollected(args: seq<Argument>, k: nat, env: Env)
    requires |args| <= 255 && ArgumentsWellFormed(args, env) && k < |args|
    ensures PrevFor(CollectedAfter(args, k, env).required, k as u8) == PrevAt(args, k, env)
  {
    if k == 1 {
      var e := ExpectedRequired(args, env);
      SelectedStep(e, 0, false);
      assert e[..0] == [];
    }
  }

  lemma RequiredStepAt(args: seq<Argument>, k: nat, env: Env)
    requires |args| <= 255 && ArgumentsWellFormed(args, env) && k < |args|
    ensures RequiredStep(ArgumentLines(args[k]), false, CollectedAfter(args, k, env), env) == Ok(CollectedAfter(args, k + 1, env))
  {
    var e := ExpectedRequired(args, env);
    var st := CollectedAfter(args, k, env);
    var prev := PrevFor(st.required, st.order);
    PrevAtCollected(args, k, env);
    ArgumentRoundTrip(args[k], k as u8, prev, env);
    var parsed := e[k];
    assert Param(ArgumentLines(args[k]), st.order, prev, env) == Ok(parsed);
    SelectedStep(e, k, false);
    SelectedStep(e, k, true);
    var st' := if parsed.isOutput then st.(output := st.output + [parsed.param])
               else st.(required := st.required + [parsed.param]);
    assert st'.(order := st.order + 1) == CollectedAfter(args, k + 1, env);
  }

  lemma {:induction false} RequiredRoundTrip(args: seq<Argument>, k: nat, env: Env)
    requires |args| <= 255 && ArgumentsWellFormed(args, env) && k <= |args|
    ensures RequiredFold(BlocksOf(args)[k..], false, CollectedAfter(args, k, env), env) == Ok(CollectedAfter(args, |args|, env))
    decreases |args| - k
  {
    if k < |args| {
      var blocks := BlocksOf(args)[k..];
      assert blocks[0] == ArgumentLines(args[k]);
      assert blocks[1..] == BlocksOf(args)[k + 1..];
      RequiredStepAt(args, k, env);
      RequiredRoundTrip(args, k + 1, env);
    }
  }

  function ExpectedOptional(args: seq<Argument>, env: Env): (r: seq<Parameter>)
    requires ArgumentsWellFormed(args, env)
    ensures |r| == |args|
    ensures forall i :: 0 <= i < |args| ==> r[i] == ExpectedParam(args[i], 0, None, env)
  {
    seq(|args|, i requires 0 <= i < |args| => ExpectedParam(args[i], 0, None, env))
  }

  lemma {:induction false} OptionalRoundTrip(args: seq<Argument>, env: Env)
    requires ArgumentsWellFormed(args, env)
    ensures OptionalFold(BlocksOf(args), env) == Ok(ExpectedOptional(args, env))
    decreases |args|
  {
    if |args| > 0 {
      ArgumentRoundTrip(args[0], 0, None, env);
      WellFormedTail(args, env);
      OptionalRoundTrip(args[1..], env);
      OptionalFoldCons(ArgumentLines(args[0]), BlocksOf(args[1..]), args[0].isOutput,
                       ExpectedParam(args[0], 0, None, env), ExpectedOptional(args[1..], env), env);
      ExpectedOptionalCons(args, env);
    }
  }

  lemma WellFormedTail(args: seq<Argument>, env: Env)
    requires |args| > 0 && ArgumentsWellFormed(args, env)
    ensures ArgumentsWellFormed(args[1..], env)
  {
    forall i | 0 <= i < |args| - 1
      ensures TagWellFormed(args[1..][i].tag, env) && Find(args[1..][i].name, "OUTPUT:") == None
    {
      assert args[1..][i] == args[i + 1];
    }
  }

  lemma {:induction false} ExpectedOptionalCons(args: seq<Argument>, env: Env)
    requires |args| > 0 && ArgumentsWellFormed(args, env) && ArgumentsWellFormed(args[1..], env)
    ensures BlocksOf(args) == [ArgumentLines(args[0])] + BlocksOf(args[1..])
    ensures ExpectedOptional(args, env) == [ExpectedParam(args[0], 0, None, env)] + ExpectedOptional(args[1..], env)
  {
    var e := ExpectedOptional(args, env);
    var r := [ExpectedParam(args[0], 0, None, env)] + ExpectedOptional(args[1..], env);
    forall i | 0 <= i < |args| ensures e[i] == r[i] {
      if i > 0 {
        assert args[1..][i - 1] == args[i];
      }
    }
  }

  lemma OptionalFoldCons(block: seq<string>, rest: seq<seq<string>>, isOutput: bool,
                         p: Parameter, ps: seq<Parameter>, env: Env)
    requires Param(block, 0, None, env) == Ok(Parsed(isOutput, p))
    requires OptionalFold(rest, env) == Ok(ps)
    ensures OptionalFold([block] + rest, env) == Ok([p] + ps)
  {
    assert ([block] + rest)[0] == block && ([block] + rest)[1..] == rest;
  }

  // ---------------------------------------------------------------------------
  // Reading an operation back

  /** Blocks of lines, each after a `PARAM:` line: the way a region is printed. */
  function Framed(blocks: seq<seq<string>>): seq<string>
    decreases |blocks|
  {
    if |blocks| == 0 then [] else ["PARAM:"] + blocks[0] + Framed(blocks[1..])
  }

  function ParamLines(args: seq<Argument>): seq<string> {
    Framed(BlocksOf(args))
  }

  function OperationLines(op: OperationSpec): seq<string> {
    [op.nickname + ":" + op.typeName, op.summary] + ["REQUIRED:"]
      + (ParamLines(op.required) + ["OPTIONAL:"] + ParamLines(op.optional))
  }

  /** What follows the `OPERATION:` marker of an operation in the dump. */
  function Chunk(op: OperationSpec): string {
    "\n" + Terminated(OperationLines(op))
  }

  /** A line that the printer writes whole and that the reader cannot mistake for
      a marker: not empty, without a line break or a final carriage return, and
      holding no `OPERATION:`. */
  predicate FreeLine(l: string) {
    l != "" && '\n' !in l && StripCarriageReturn(l) == l && Find(l, "OPERATION:") == None
      && l != "REQUIRED:" && l != "OPTIONAL:" && l != "PARAM:"
  }

  predicate FreeBlocks(blocks: seq<seq<string>>) {
    forall i :: 0 <= i < |blocks| ==> |blocks[i]| > 0 && forall j :: 0 <= j < |blocks[i]| ==> FreeLine(blocks[i][j])
  }

  /** An operation whose printed form `parse_output` reads back faithfully. The
      `VipsAffine` operation is read differently (its coefficients are replaced),
      and more than 255 required arguments overflow the order counter. */
  predicate SpecWellFormed(op: OperationSpec, env: Env) {
    && ':' !in op.nickname && ':' !in op.typeName && op.typeName != "VipsAffine"
    && FreeLine(op.nickname + ":" + op.typeName) && FreeLine(op.summary)
    && |op.required| <= 255
    && ArgumentsWellFormed(op.required, env) && FreeBlocks(BlocksOf(op.required))
    && ArgumentsWellFormed(op.optional, env) && FreeBlocks(BlocksOf(op.optional))
  }

  /** The operation the generator should make of a catalogue entry. */
  function ExpectedOperation(op: OperationSpec, env: Env): Operation
    requires SpecWellFormed(op, env)
  {
    var e := ExpectedRequired(op.required, env);
    Operation(OperationName(op.nickname, env), op.nickname, op.typeName, op.summary,
              Selected(e, false), ExpectedOptional(op.optional, env), Selected(e, true))
  }

  lemma {:induction false} TakeUntilMarker(a: seq<string>, m: string, b: seq<string>)
    requires m !in a
    ensures TakeUntil(a + [m] + b, m) == (a, b)
    decreases |a|
  {
    var lines := a + [m] + b;
    if |a| == 0 {
      assert lines[1..] == b;
    } else {
      assert a[0] in a;
      assert lines[1..] == a[1..] + [m] + b;
      TakeUntilMarker(a[1..], m, b);
      assert [a[0]] + a[1..] == a;
    }
  }

  lemma DropEmptyKeeps(lines: seq<string>)
    requires forall i :: 0 <= i < |lines| ==> lines[i] != ""
    ensures DropEmpty(lines) == lines
  {
    if |lines| > 0 {
      DropEmptyKeeps(lines[1..]);
    }
  }

  lemma FreeBlocksTail(blocks: seq<seq<string>>)
    requires |blocks| > 0 && FreeBlocks(blocks)
    ensures FreeBlocks(blocks[1..])
  {
    forall i | 0 <= i < |blocks[1..]|
      ensures |blocks[1..][i]| > 0 && forall j :: 0 <= j < |blocks[1..][i]| ==> FreeLine(blocks[1..][i][j])
    {
      assert blocks[1..][i] == blocks[i + 1];
    }
  }

  /** Each line of a region is a `PARAM:` marker or a line of a block. */
  lemma {:induction false} FramedMembers(blocks: seq<seq<string>>)
    requires FreeBlocks(blocks)
    ensures forall i :: 0 <= i < |Framed(blocks)| ==> Framed(blocks)[i] == "PARAM:" || FreeLine(Framed(blocks)[i])
    decreases |blocks|
  {
    if |blocks| > 0 {
      FreeBlocksTail(blocks);
      FramedMembers(blocks[1..]);
      var first := ["PARAM:"] + blocks[0];
      var lines := Framed(blocks);
      assert lines == first + Framed(blocks[1..]);
      forall i | 0 <= i < |lines|
        ensures lines[i] == "PARAM:" || FreeLine(lines[i])
      {
        if i >= |first| {
          assert lines[i] == Framed(blocks[1..])[i - |first|];
        } else if i > 0 {
          assert lines[i] == blocks[0][i - 1];
        }
      }
    }
  }

  lemma {:induction false} BlocksOfFramed(blocks: seq<seq<string>>)
    requires |blocks| > 0 && FreeBlocks(blocks)
    ensures Blocks(blocks[0] + Framed(blocks[1..])) == blocks
    decreases |blocks|
  {
    var first := blocks[0];
    assert "PARAM:" !in first by {
      forall j | 0 <= j < |first| ensures first[j] != "PARAM:" {
        assert FreeLine(blocks[0][j]);
      }
    }
    FreeBlocksTail(blocks);
    var tail := blocks[1..];
    if |blocks| == 1 {
      assert first + Framed(tail) == first;
      assert TakeUntil(first, "PARAM:") == (first, []);
    } else {
      var rest := tail[0] + Framed(tail[1..]);
      assert first + Framed(tail) == first + ["PARAM:"] + rest;
      TakeUntilMarker(first, "PARAM:", rest);
      BlocksOfFramed(tail);
      assert blocks == [first] + tail;
    }
  }

  /** The blocks of a region, as `parse_output` takes them apart. */
  lemma RegionBlocks(blocks: seq<seq<string>>)
    requires FreeBlocks(blocks)
    ensures Blocks(SkipOne(Framed(blocks))) == blocks
  {
    if |blocks| > 0 {
      var rest := blocks[0] + Framed(blocks[1..]);
      assert Framed(blocks) == ["PARAM:"] + rest;
      assert (["PARAM:"] + rest)[1..] == rest;
      BlocksOfFramed(blocks);
    }
  }

  predicate ChunkLine(l: string) {
    l == "REQUIRED:" || l == "OPTIONAL:" || l == "PARAM:" || FreeLine(l)
  }

  lemma ConcatLines(a: seq<string>, b: seq<string>)
    requires forall i :: 0 <= i < |a| ==> ChunkLine(a[i])
    requires forall i :: 0 <= i < |b| ==> ChunkLine(b[i])
    ensures forall i :: 0 <= i < |a + b| ==> ChunkLine((a + b)[i])
  {
    forall i | 0 <= i < |a + b| ensures ChunkLine((a + b)[i]) {
      if i >= |a| { assert (a + b)[i] == b[i - |a|]; }
    }
  }

  lemma OperationLinesShape(op: OperationSpec, env: Env)
    requires SpecWellFormed(op, env)
    ensures forall i :: 0 <= i < |OperationLines(op)| ==> ChunkLine(OperationLines(op)[i])
    ensures "OPTIONAL:" !in ParamLines(op.required)
  {
    var req := ParamLines(op.required);
    var opt := ParamLines(op.optional);
    FramedMembers(BlocksOf(op.required));
    FramedMembers(BlocksOf(op.optional));
    var pre := [op.nickname + ":" + op.typeName, op.summary] + ["REQUIRED:"];
    assert forall i :: 0 <= i < |pre| ==> ChunkLine(pre[i]);
    ConcatLines(req, ["OPTIONAL:"]);
    ConcatLines(req + ["OPTIONAL:"], opt);
    ConcatLines(pre, req + ["OPTIONAL:"] + opt);
    forall i | 0 <= i < |req| ensures req[i] != "OPTIONAL:" { }
  }

  lemma ChunkLinePrintable(l: string)
    requires ChunkLine(l)
    ensures l != "" && '\n' !in l && StripCarriageReturn(l) == l && Find(l, "OPERATION:") == None
  {
    if l == "REQUIRED:" || l == "PARAM:" {
      FindAbsent(l, "OPERATION:");
    }
  }

  lemma LinesOfChunk(lines: seq<string>)
    requires forall i :: 0 <= i < |lines| ==> ChunkLine(lines[i])
    ensures DropEmpty(Lines("\n" + Terminated(lines))) == lines
  {
    var all := [""] + lines;
    forall i | 0 <= i < |all|
      ensures '\n' !in all[i] && StripCarriageReturn(all[i]) == all[i]
    {
      if i > 0 {
        assert all[i] == lines[i - 1];
        ChunkLinePrintable(lines[i - 1]);
      }
    }
    forall i | 0 <= i < |lines| ensures lines[i] != "" {
      ChunkLinePrintable(lines[i]);
    }
    TerminatedAfterEmpty(lines);
    LinesOfTerminated(all);
    assert all[1..] == lines;
    DropEmptyKeeps(lines);
  }

  lemma ChunkLines(op: OperationSpec, env: Env)
    requires SpecWellFormed(op, env)
    ensures DropEmpty(Lines(Chunk(op))) == OperationLines(op)
    ensures "OPTIONAL:" !in ParamLines(op.required)
  {
    OperationLinesShape(op, env);
    LinesOfChunk(OperationLines(op));
  }

  lemma RegionsOfLines(chunk: string, header: seq<string>, req: seq<string>, opt: seq<string>)
    requires "REQUIRED:" !in header && "OPTIONAL:" !in req
    requires DropEmpty(Lines(chunk)) == header + ["REQUIRED:"] + (req + ["OPTIONAL:"] + opt)
    ensures RegionsOf(chunk) == Regions(header, SkipOne(req), SkipOne(opt))
  {
    TakeUntilMarker(header, "REQUIRED:", req + ["OPTIONAL:"] + opt);
    TakeUntilMarker(req, "OPTIONAL:", opt);
  }

  lemma ChunkRegions(op: OperationSpec, env: Env)
    requires SpecWellFormed(op, env)
    ensures RegionsOf(Chunk(op)) == Regions([op.nickname + ":" + op.typeName, op.summary],
                                            SkipOne(ParamLines(op.required)), SkipOne(ParamLines(op.optional)))
  {
    ChunkLines(op, env);
    assert "REQUIRED:" !in [op.nickname + ":" + op.typeName, op.summary];
    RegionsOfLines(Chunk(op), [op.nickname + ":" + op.typeName, op.summary],
                   ParamLines(op.required), ParamLines(op.optional));
  }

  lemma OperationOfParts(chunk: string, nickname: string, typeName: string, summary: string,
                         reqRegion: seq<string>, optRegion: seq<string>, st: Collected, optional: seq<Parameter>, env: Env)
    requires ':' !in nickname && ':' !in typeName && typeName != "VipsAffine"
    requires RegionsOf(chunk) == Regions([nickname + ":" + typeName, summary], reqRegion, optRegion)
    requires RequiredFold(Blocks(reqRegion), false, Collected([], [], 0), env) == Ok(st)
    requires OptionalFold(Blocks(optRegion), env) == Ok(optional)
    ensures OperationOf(chunk, env) == Ok(Operation(OperationName(nickname, env), nickname, typeName, summary,
                                                    st.required, optional, st.output))
  {
    var rg := RegionsOf(chunk);
    NameSplit(nickname, typeName);
    assert rg.header[0] == nickname + ":" + typeName && rg.header[1] == summary;
  }

  lemma NameSplit(nickname: string, typeName: string)
    requires ':' !in nickname && ':' !in typeName
    ensures Split(nickname + ":" + typeName, ":") == [nickname, typeName]
  {
    SplitFields([nickname, typeName]);
    assert Join([nickname, typeName], ":") == nickname + ":" + typeName;
  }

  lemma RequiredRegionRoundTrip(args: seq<Argument>, env: Env)
    requires |args| <= 255 && ArgumentsWellFormed(args, env) && FreeBlocks(BlocksOf(args))
    ensures var e := ExpectedRequired(args, env);
      RequiredFold(Blocks(SkipOne(ParamLines(args))), false, Collected([], [], 0), env)
        == Ok(Collected(Selected(e, false), Selected(e, true), |args| as u8))
  {
    RegionBlocks(BlocksOf(args));
    var e := ExpectedRequired(args, env);
    assert e[..0] == [] && e[..|args|] == e;
    assert CollectedAfter(args, 0, env) == Collected([], [], 0);
    assert BlocksOf(args)[0..] == BlocksOf(args);
    RequiredRoundTrip(args, 0, env);
  }

  lemma OptionalRegionRoundTrip(args: seq<Argument>, env: Env)
    requires ArgumentsWellFormed(args, env) && FreeBlocks(BlocksOf(args))
    ensures OptionalFold(Blocks(SkipOne(ParamLines(args))), env) == Ok(ExpectedOptional(args, env))
  {
    RegionBlocks(BlocksOf(args));
    OptionalRoundTrip(args, env);
  }

  /** A printed operation is read back as the operation it describes. */
  lemma ChunkRoundTrip(op: OperationSpec, env: Env)
    requires SpecWellFormed(op, env)
    ensures OperationOf(Chunk(op), env) == Ok(ExpectedOperation(op, env))
  {
    ChunkRegions(op, env);
    RequiredRegionRoundTrip(op.required, env);
    OptionalRegionRoundTrip(op.optional, env);
    var e := ExpectedRequired(op.required, env);
    OperationOfParts(Chunk(op), op.nickname, op.typeName, op.summary,
                     SkipOne(ParamLines(op.required)), SkipOne(ParamLines(op.optional)),
                     Collected(Selected(e, false), Selected(e, true), |op.required| as u8),
                     ExpectedOptional(op.optional, env), env);
  }

  // ---------------------------------------------------------------------------
  // Reading a dump back

  /** The whole output of the introspection program. */
  function Dump(ops: seq<OperationSpec>): string
    decreases |ops|
  {
    if |ops| == 0 then "" else "OPERATION:" + (Chunk(ops[0]) + Dump(ops[1..]))
  }

  /** Every operation of the catalogue is well formed. */
  predicate CatalogueWellFormed(ops: seq<OperationSpec>, env: Env)
    decreases |ops|
  {
    |ops| == 0 || (SpecWellFormed(ops[0], env) && CatalogueWellFormed(ops[1..], env))
  }

  function ChunksOf(ops: seq<OperationSpec>): (r: seq<string>)
    ensures |r| == |ops|
    ensures forall i :: 0 <= i < |ops| ==> r[i] == Chunk(ops[i])
  {
    if |ops| == 0 then [] else [Chunk(ops[0])] + ChunksOf(ops[1..])
  }

  function ExpectedOperations(ops: seq<OperationSpec>, env: Env): (r: seq<Operation>)
    requires CatalogueWellFormed(ops, env)
    ensures |r| == |ops|
  {
    if |ops| == 0 then [] else [ExpectedOperation(ops[0], env)] + ExpectedOperations(ops[1..], env)
  }

  /** The `k`-th operation of a well-formed catalogue is well formed, and the
      generator should make of it its expected operation. */
  lemma {:induction false} CatalogueAt(specs: seq<OperationSpec>, env: Env, k: nat)
    requires CatalogueWellFormed(specs, env) && k < |specs|
    ensures SpecWellFormed(specs[k], env) && ExpectedOperations(specs, env)[k] == ExpectedOperation(specs[k], env)
    decreases k
  {
    if k > 0 {
      CatalogueAt(specs[1..], env, k - 1);
      assert specs[1..][k - 1] == specs[k];
    }
  }

  /** A chunk holds no `OPERATION:` marker and ends with a line feed. */
  lemma ChunkShape(op: OperationSpec, env: Env)
    requires SpecWellFormed(op, env)
    ensures Find(Chunk(op), "OPERATION:") == None
    ensures |Chunk(op)| > 0 && Chunk(op)[|Chunk(op)| - 1] == '\n'
  {
    var lines := OperationLines(op);
    OperationLinesShape(op, env);
    var all := [""] + lines;
    forall i | 0 <= i < |all|
      ensures Find(all[i], "OPERATION:") == None
    {
      if i > 0 {
        assert all[i] == lines[i - 1];
        ChunkLinePrintable(lines[i - 1]);
      }
    }
    TerminatedAfterEmpty(lines);
    FindTerminated(all, "OPERATION:");
    TerminatedEnds(all);
  }

  lemma {:induction false} SplitChunks(ops: seq<OperationSpec>, env: Env)
    requires |ops| > 0 && CatalogueWellFormed(ops, env)
    ensures Split(Chunk(ops[0]) + Dump(ops[1..]), "OPERATION:") == ChunksOf(ops)
    decreases |ops|
  {
    var c := Chunk(ops[0]);
    ChunkShape(ops[0], env);
    var tail := ops[1..];
    if |ops| == 1 {
      assert c + Dump(tail) == c;
    } else {
      var rest := Chunk(tail[0]) + Dump(tail[1..]);
      assert Dump(tail) == "OPERATION:" + rest;
      OperationSeparatorEnds(c);
      SplitAfterPiece(c, "OPERATION:", rest);
      SplitChunks(tail, env);
      assert ChunksOf(ops) == [c] + ChunksOf(tail);
    }
  }

  lemma OperationSeparatorEnds(c: string)
    requires |c| > 0 && c[|c| - 1] == '\n'
    ensures c[|c| - 1] !in "OPERATION:"
  {
  }

  lemma {:induction false} ChunksNonEmpty(ops: seq<OperationSpec>, env: Env)
    requires CatalogueWellFormed(ops, env)
    ensures forall i :: 0 <= i < |ops| ==> ChunksOf(ops)[i] != ""
    decreases |ops|
  {
    if |ops| > 0 {
      ChunkShape(ops[0], env);
      ChunksNonEmpty(ops[1..], env);
    }
  }

  lemma DumpChunks(ops: seq<OperationSpec>, env: Env)
    requires CatalogueWellFormed(ops, env)
    ensures Chunks(Dump(ops)) == ChunksOf(ops)
  {
    if |ops| == 0 {
      FindAbsent("", "OPERATION:");
    } else {
      SplitAfterSeparator("OPERATION:", Chunk(ops[0]) + Dump(ops[1..]));
      SplitChunks(ops, env);
      ChunksNonEmpty(ops, env);
      DropEmptyKeeps(ChunksOf(ops));
    }
  }

  lemma {:induction false} ChunksRoundTrip(ops: seq<OperationSpec>, env: Env)
    requires CatalogueWellFormed(ops, env)
    ensures OperationsOf(ChunksOf(ops), env) == Ok(ExpectedOperations(ops, env))
    decreases |ops|
  {
    if |ops| > 0 {
      ChunkRoundTrip(ops[0], env);
      ChunksRoundTrip(ops[1..], env);
      assert ChunksOf(ops)[1..] == ChunksOf(ops[1..]);
    }
  }

  /** What `parse_output` reads from a printed catalogue is, operation by
      operation, what the catalogue describes. */
  lemma DumpRoundTrip(ops: seq<OperationSpec>, env: Env)
    requires CatalogueWellFormed(ops, env)
    ensures Operations(Dump(ops), env) == Ok(ExpectedOperations(ops, env))
  {
    DumpChunks(ops, env);
    ChunksRoundTrip(ops, env);
  }
}
