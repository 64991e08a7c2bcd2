/** The driver of the generator: it drops the blacklisted operations, folds the
    others into the text of the wrappers and of the error variants, gathers the
    `enum` declarations of all operations, sorts them and removes repeats, and
    fills the two module templates. */
module Generator {
  import opened Base
  import opened Text
  import opened Foreign
  import opened Types
  import opened Emitter

  // ---------------------------------------------------------------------------
  // The blacklist

  /** The operations with a hand-written binding, named by their GType name. */
  const Blacklist: seq<string> := ["VipsForeignSaveDzBuffer", "crop", "VipsLinear", "VipsGetpoint"]

  predicate Blacklisted(op: Operation) {
    op.vipsOperation in Blacklist
  }

  /** The `.filter(..)` of the fold: the operations that are not blacklisted, in
      order. */
  function Kept(ops: seq<Operation>): seq<Operation>
    decreases |ops|
  {
    if |ops| == 0 then []
    else (if Blacklisted(ops[0]) then [] else [ops[0]]) + Kept(ops[1..])
  }

  /** The filter keeps exactly the operations that are not blacklisted. */
  lemma {:induction false} KeptMembers(ops: seq<Operation>)
    ensures forall op :: op in Kept(ops) <==> op in ops && !Blacklisted(op)
    decreases |ops|
  {
    if |ops| > 0 {
      KeptMembers(ops[1..]);
      assert ops == [ops[0]] + ops[1..];
    }
  }

  /** The GType names that `introspect.c` prints all begin with `Vips`; of those,
      the blacklist excludes exactly three. The entry `crop` is a nickname, not a
      GType name, and matches none of them. */
  lemma BlacklistByTypeName(op: Operation)
    requires StartsWith(op.vipsOperation, "Vips")
    ensures Blacklisted(op) <==>
      op.vipsOperation == "VipsForeignSaveDzBuffer" || op.vipsOperation == "VipsLinear" ||
      op.vipsOperation == "VipsGetpoint"
  {
    if op.vipsOperation == "crop" {
      DiffersAt(op.vipsOperation, "Vips", 0);
    }
  }

  lemma {:induction false} KeptAppend(a: seq<Operation>, b: seq<Operation>)
    ensures Kept(a + b) == Kept(a) + Kept(b)
    decreases |a|
  {
    if |a| == 0 {
      assert a + b == b;
    } else {
      assert (a + b)[1..] == a[1..] + b;
      KeptAppend(a[1..], b);
    }
  }

  lemma KeptOne(op: Operation)
    ensures Kept([op]) == if Blacklisted(op) then [] else [op]
  {
    assert [op][1..] == [];
  }

  // ---------------------------------------------------------------------------
  // The fold

  /** The error variant of an operation. */
  function ErrorVariant(op: Operation, env: Env): string {
    ClassName(op, env) + "Error,\n"
  }

  /** The arm of `Display` for that variant. */
  function ErrorDisplay(op: Operation, env: Env): string {
    DisplayArm(ClassName(op, env)) + "\n"
  }

  function ErrorVariants(ops: seq<Operation>, env: Env): (r: seq<string>)
    ensures |r| == |ops| && forall i :: 0 <= i < |ops| ==> r[i] == ErrorVariant(ops[i], env)
  {
    seq(|ops|, i requires 0 <= i < |ops| => ErrorVariant(ops[i], env))
  }

  function ErrorDisplays(ops: seq<Operation>, env: Env): (r: seq<string>)
    ensures |r| == |ops| && forall i :: 0 <= i < |ops| ==> r[i] == ErrorDisplay(ops[i], env)
  {
    seq(|ops|, i requires 0 <= i < |ops| => ErrorDisplay(ops[i], env))
  }

  /** `Operation::body` as a function value. */
  function Renderer(env: Env): Operation -> Result<string> {
    (op: Operation) => Body(op, env)
  }

  /** The text of each operation, or the failure of the first that has none. */
  function Bodies(ops: seq<Operation>, render: Operation -> Result<string>): (r: Result<seq<string>>)
    ensures r.Ok? <==> forall i :: 0 <= i < |ops| ==> render(ops[i]).Ok?
    ensures r.Ok? ==> |r.value| == |ops| && forall i :: 0 <= i < |ops| ==> r.value[i] == render(ops[i]).value
    ensures r.Err? ==> exists i ::
      0 <= i < |ops| && render(ops[i]) == Err(r.error) && forall j :: 0 <= j < i ==> render(ops[j]).Ok?
    decreases |ops|
  {
    if |ops| == 0 then Ok([])
    else
      match render(ops[0])
      case Err(e) => Err(e)
      case Ok(b) =>
        var rest := Bodies(ops[1..], render);
        if rest.Err? then
          assert forall i :: 0 <= i < |ops| - 1 ==> ops[1..][i] == ops[i + 1];
          Err(rest.error)
        else Ok([b] + rest.value)
  }

  lemma {:induction false} BodiesAppend(a: seq<Operation>, b: seq<Operation>, render: Operation -> Result<string>)
    ensures Bodies(a + b, render) ==
      match Bodies(a, render)
      case Err(e) => Err(e)
      case Ok(x) => (match Bodies(b, render) case Err(e) => Err(e) case Ok(y) => Ok(x + y))
    decreases |a|
  {
    if |a| == 0 {
      assert a + b == b;
      if Bodies(b, render).Ok? {
        assert [] + Bodies(b, render).value == Bodies(b, render).value;
      }
    } else {
      var ab := a + b;
      assert ab[0] == a[0];
      assert ab[1..] == a[1..] + b;
      BodiesAppend(a[1..], b, render);
      if render(a[0]).Ok? && Bodies(a[1..], render).Ok? && Bodies(b, render).Ok? {
        var x := Bodies(a[1..], render).value;
        var y := Bodies(b, render).value;
        assert [render(a[0]).value] + (x + y) == [render(a[0]).value] + x + y;
      }
    }
  }

  /** The three texts that the fold accumulates. */
  datatype Texts = Texts(methods: string, errors: string, errorsDisplay: string)

  /** What the fold computes: the texts of the operations that are not
      blacklisted, one after the other, or the first failure among them. */
  function Rendered(ops: seq<Operation>, env: Env): Result<Texts> {
    RenderedBy(ops, Renderer(env), env)
  }

  /** The same for any way of rendering one operation. */
  function RenderedBy(ops: seq<Operation>, render: Operation -> Result<string>, env: Env): Result<Texts> {
    var kept := Kept(ops);
    match Bodies(kept, render)
    case Err(e) => Err(e)
    case Ok(bodies) =>
      Ok(Texts(Concat(bodies), Concat(ErrorVariants(kept, env)), Concat(ErrorDisplays(kept, env))))
  }

  lemma {:induction false} ConcatAppend(a: seq<string>, b: seq<string>)
    ensures Concat(a + b) == Concat(a) + Concat(b)
    decreases |a|
  {
    if |a| == 0 {
      assert a + b == b;
    } else {
      assert (a + b)[1..] == a[1..] + b;
      ConcatAppend(a[1..], b);
    }
  }

  lemma ConcatOne(s: string)
    ensures Concat([s]) == s
  {
    assert [s][1..] == [];
  }

  /** The fold over the operations (the `.filter(..).fold(..)` of `main`). */
  method Fold(ops: seq<Operation>, render: Operation -> Result<string>, env: Env) returns (r: Result<Texts>)
    ensures r == RenderedBy(ops, render, env)
  {
    var methods, errors, errorsDisplay := "", "", "";
    var i := 0;
    while i < |ops|
      invariant 0 <= i <= |ops|
      invariant Bodies(Kept(ops[..i]), render).Ok?
      invariant methods == Concat(Bodies(Kept(ops[..i]), render).value)
      invariant errors == Concat(ErrorVariants(Kept(ops[..i]), env))
      invariant errorsDisplay == Concat(ErrorDisplays(Kept(ops[..i]), env))
    {
      var op := ops[i];
      KeptStep(ops, i);
      FoldStep(ops, i, render, env);
      if !Blacklisted(op) {
        var body := render(op);
        if body.Err? {
          FoldFails(ops, i, render);
          return Err(body.error);
        }
        methods := methods + body.value;
        errors := errors + ErrorVariant(op, env);
        errorsDisplay := errorsDisplay + ErrorDisplay(op, env);
      }
      i := i + 1;
    }
    assert ops[..i] == ops;
    return Ok(Texts(methods, errors, errorsDisplay));
  }

  lemma KeptStep(ops: seq<Operation>, i: nat)
    requires i < |ops|
    ensures Kept(ops[..i + 1]) == Kept(ops[..i]) + (if Blacklisted(ops[i]) then [] else [ops[i]])
  {
    assert ops[..i + 1] == ops[..i] + [ops[i]];
    KeptAppend(ops[..i], [ops[i]]);
    KeptOne(ops[i]);
  }

  lemma FoldStep(ops: seq<Operation>, i: nat, render: Operation -> Result<string>, env: Env)
    requires i < |ops|
    ensures Concat(ErrorVariants(Kept(ops[..i + 1]), env)) ==
      Concat(ErrorVariants(Kept(ops[..i]), env)) + (if Blacklisted(ops[i]) then "" else ErrorVariant(ops[i], env))
    ensures Concat(ErrorDisplays(Kept(ops[..i + 1]), env)) ==
      Concat(ErrorDisplays(Kept(ops[..i]), env)) + (if Blacklisted(ops[i]) then "" else ErrorDisplay(ops[i], env))
    ensures Bodies(Kept(ops[..i]), render).Ok? && (Blacklisted(ops[i]) || render(ops[i]).Ok?) ==>
      Bodies(Kept(ops[..i + 1]), render).Ok? &&
      Concat(Bodies(Kept(ops[..i + 1]), render).value) ==
        Concat(Bodies(Kept(ops[..i]), render).value) + (if Blacklisted(ops[i]) then "" else render(ops[i]).value)
  {
    var op := ops[i];
    KeptStep(ops, i);
    var here := if Blacklisted(op) then [] else [op];
    TextsStep(Kept(ops[..i]), here, env);
    if Bodies(Kept(ops[..i]), render).Ok? && (Blacklisted(ops[i]) || render(ops[i]).Ok?) {
      BodiesStep(Kept(ops[..i]), here, render);
    }
  }

  lemma TextsStep(before: seq<Operation>, here: seq<Operation>, env: Env)
    requires |here| <= 1
    ensures Concat(ErrorVariants(before + here, env)) ==
      Concat(ErrorVariants(before, env)) + (if |here| == 0 then "" else ErrorVariant(here[0], env))
    ensures Concat(ErrorDisplays(before + here, env)) ==
      Concat(ErrorDisplays(before, env)) + (if |here| == 0 then "" else ErrorDisplay(here[0], env))
  {
    assert ErrorVariants(before + here, env) == ErrorVariants(before, env) + ErrorVariants(here, env);
    assert ErrorDisplays(before + here, env) == ErrorDisplays(before, env) + ErrorDisplays(here, env);
    ConcatAppend(ErrorVariants(before, env), ErrorVariants(here, env));
    ConcatAppend(ErrorDisplays(before, env), ErrorDisplays(here, env));
    if |here| == 1 {
      assert ErrorVariants(here, env) == [ErrorVariant(here[0], env)];
      assert ErrorDisplays(here, env) == [ErrorDisplay(here[0], env)];
      ConcatOne(ErrorVariant(here[0], env));
      ConcatOne(ErrorDisplay(here[0], env));
    }
  }

  lemma BodiesStep(before: seq<Operation>, here: seq<Operation>, render: Operation -> Result<string>)
    requires |here| <= 1
    requires Bodies(before, render).Ok? && (|here| == 0 || render(here[0]).Ok?)
    ensures Bodies(before + here, render).Ok?
    ensures Concat(Bodies(before + here, render).value) ==
      Concat(Bodies(before, render).value) + (if |here| == 0 then "" else render(here[0]).value)
  {
    BodiesAppend(before, here, render);
    if |here| == 0 {
      assert before + here == before;
    } else {
      assert here[1..] == [];
      assert [render(here[0]).value] + [] == [render(here[0]).value];
      assert Bodies(here, render) == Ok([render(here[0]).value]);
      ConcatAppend(Bodies(before, render).value, [render(here[0]).value]);
      ConcatOne(render(here[0]).value);
    }
  }

  lemma FoldFails(ops: seq<Operation>, i: nat, render: Operation -> Result<string>)
    requires i < |ops| && !Blacklisted(ops[i]) && render(ops[i]).Err?
    requires Bodies(Kept(ops[..i]), render).Ok?
    ensures Bodies(Kept(ops), render) == Err(render(ops[i]).error)
  {
    KeptSplit(ops, i);
    var rest := [ops[i]] + Kept(ops[i + 1..]);
    BodiesAppend(Kept(ops[..i]), rest, render);
    BodiesHeadErr(ops[i], Kept(ops[i + 1..]), render);
  }

  lemma KeptSplit(ops: seq<Operation>, i: nat)
    requires i < |ops| && !Blacklisted(ops[i])
    ensures Kept(ops) == Kept(ops[..i]) + ([ops[i]] + Kept(ops[i + 1..]))
  {
    KeptAround(ops[..i], ops[i], ops[i + 1..]);
    Around(ops, i);
  }

  lemma Around(ops: seq<Operation>, i: nat)
    requires i < |ops|
    ensures ops == ops[..i] + ([ops[i]] + ops[i + 1..])
  {
  }

  lemma KeptAround(a: seq<Operation>, x: Operation, b: seq<Operation>)
    requires !Blacklisted(x)
    ensures Kept(a + ([x] + b)) == Kept(a) + ([x] + Kept(b))
  {
    KeptAppend(a, [x] + b);
    KeptAppend([x], b);
    KeptOne(x);
  }

  lemma BodiesHeadErr(x: Operation, rest: seq<Operation>, render: Operation -> Result<string>)
    requires render(x).Err?
    ensures Bodies([x] + rest, render) == Err(render(x).error)
  {
    assert ([x] + rest)[0] == x;
  }

  /** A blacklisted operation contributes nothing: removing it leaves the texts
      (and any failure) as they were. */
  lemma BlacklistedContributeNothing(a: seq<Operation>, op: Operation, b: seq<Operation>, env: Env)
    requires Blacklisted(op)
    ensures Rendered(a + [op] + b, env) == Rendered(a + b, env)
  {
    KeptAppend(a + [op], b);
    KeptAppend(a, [op]);
    KeptAppend(a, b);
    KeptOne(op);
    assert Kept(a) + [] == Kept(a);
  }

  /** The fold fails exactly when some operation that is not blacklisted has an
      optional enumeration argument without its default among its entries. */
  lemma RenderedFails(ops: seq<Operation>, env: Env)
    ensures Rendered(ops, env).Err? <==>
      exists op :: op in ops && !Blacklisted(op) &&
        exists j :: 0 <= j < |op.optional| && LacksDefault(op.optional[j].paramType)
  {
    var kept := Kept(ops);
    KeptMembers(ops);
    BodiesFail(kept, env);
    if Rendered(ops, env).Err? {
      var i :| 0 <= i < |kept| && Body(kept[i], env).Err?;
      assert kept[i] in kept;
    } else {
      forall op | op in ops && !Blacklisted(op)
        ensures forall j :: 0 <= j < |op.optional| ==> !LacksDefault(op.optional[j].paramType)
      {
        assert op in kept;
        var i :| 0 <= i < |kept| && kept[i] == op;
      }
    }
  }

  lemma BodiesFail(kept: seq<Operation>, env: Env)
    ensures forall i :: 0 <= i < |kept| ==>
      (Body(kept[i], env).Err? <==>
        exists j :: 0 <= j < |kept[i].optional| && LacksDefault(kept[i].optional[j].paramType))
  {
    forall i | 0 <= i < |kept|
      ensures Body(kept[i], env).Err? <==>
        exists j :: 0 <= j < |kept[i].optional| && LacksDefault(kept[i].optional[j].paramType)
    {
      BodyFails(kept[i], env);
    }
  }

  /** Each operation that is not blacklisted has exactly one error variant, in
      order: the error text, read line by line, is the variants. */
  lemma ErrorsReadBack(ops: seq<Operation>, env: Env)
    requires forall op :: op in ops ==> '\n' !in ClassName(op, env)
    requires Rendered(ops, env).Ok?
    ensures Lines(Rendered(ops, env).value.errors) ==
      seq(|Kept(ops)|, i requires 0 <= i < |Kept(ops)| => ClassName(Kept(ops)[i], env) + "Error,")
  {
    KeptMembers(ops);
    VariantLines(Kept(ops), env);
  }

  lemma VariantLines(kept: seq<Operation>, env: Env)
    requires forall i :: 0 <= i < |kept| ==> '\n' !in ClassName(kept[i], env)
    ensures Lines(Concat(ErrorVariants(kept, env))) ==
      seq(|kept|, i requires 0 <= i < |kept| => ClassName(kept[i], env) + "Error,")
  {
    var lines := seq(|kept|, i requires 0 <= i < |kept| => ClassName(kept[i], env) + "Error,");
    ConcatTerminated(ErrorVariants(kept, env), lines);
    forall i | 0 <= i < |lines|
      ensures '\n' !in lines[i] && StripCarriageReturn(lines[i]) == lines[i]
    {
      VariantLine(ClassName(kept[i], env));
    }
    LinesOfTerminated(lines);
  }

  lemma VariantLine(c: string)
    requires '\n' !in c
    ensures '\n' !in c + "Error," && StripCarriageReturn(c + "Error,") == c + "Error,"
  {
    var l := c + "Error,";
    assert l[|l| - 1] == ',';
  }

  /** The arm of `Display` for the variant of the operation with class name `c`,
      without its line feed. */
  function DisplayArm(c: string): string {
    "Error::" + c + "Error => write!(f, \"vips error: " + c + "Error. Check error buffer for more details\"),"
  }

  /** Each operation that is not blacklisted has exactly one `Display` arm, in
      order: the text of the arms, read line by line, is one arm per operation
      naming its variant. */
  lemma DisplaysReadBack(ops: seq<Operation>, env: Env)
    requires forall op :: op in ops ==> '\n' !in ClassName(op, env)
    requires Rendered(ops, env).Ok?
    ensures Lines(Rendered(ops, env).value.errorsDisplay) ==
      seq(|Kept(ops)|, i requires 0 <= i < |Kept(ops)| =>
        "Error::" + ClassName(Kept(ops)[i], env) + "Error => write!(f, \"vips error: " +
        ClassName(Kept(ops)[i], env) + "Error. Check error buffer for more details\"),")
  {
    KeptMembers(ops);
    DisplayLines(Kept(ops), env);
  }

  lemma DisplayLines(kept: seq<Operation>, env: Env)
    requires forall i :: 0 <= i < |kept| ==> '\n' !in ClassName(kept[i], env)
    ensures Lines(Concat(ErrorDisplays(kept, env))) ==
      seq(|kept|, i requires 0 <= i < |kept| => DisplayArm(ClassName(kept[i], env)))
  {
    var lines := seq(|kept|, i requires 0 <= i < |kept| => DisplayArm(ClassName(kept[i], env)));
    ConcatTerminated(ErrorDisplays(kept, env), lines);
    forall i | 0 <= i < |lines|
      ensures '\n' !in lines[i] && StripCarriageReturn(lines[i]) == lines[i]
    {
      DisplayArmLine(ClassName(kept[i], env));
    }
    LinesOfTerminated(lines);
  }

  lemma DisplayArmLine(c: string)
    requires '\n' !in c
    ensures '\n' !in DisplayArm(c) && StripCarriageReturn(DisplayArm(c)) == DisplayArm(c)
  {
    var l := DisplayArm(c);
    var a, b := "Error::", "Error => write!(f, \"vips error: ";
    var z := "Error. Check error buffer for more details\"),";
    assert '\n' !in a && '\n' !in b && '\n' !in z;
    FreeConcat(a, c);
    FreeConcat(a + c, b);
    FreeConcat(a + c + b, c);
    FreeConcat(a + c + b + c, z);
    assert l == a + c + b + c + z;
    assert l[|l| - 1] == z[|z| - 1] == ',';
  }

  /** Every operation that is not blacklisted gets its wrapper and its error
      variant, and, with optional arguments, its options record and options
      wrapper. */
  lemma RenderedDeclares(ops: seq<Operation>, env: Env, op: Operation)
    requires Rendered(ops, env).Ok? && op in ops && !Blacklisted(op)
    ensures Contains(Rendered(ops, env).value.methods, Declaration(op, false, env))
    ensures |op.optional| > 0 ==>
      Contains(Rendered(ops, env).value.methods, Declaration(op, true, env)) &&
      Contains(Rendered(ops, env).value.methods, "pub struct " + ClassName(op, env) + "Options {")
    ensures Contains(Rendered(ops, env).value.errors, ErrorVariant(op, env))
    ensures Contains(Rendered(ops, env).value.errorsDisplay, ErrorDisplay(op, env))
  {
    var kept := Kept(ops);
    KeptMembers(ops);
    assert op in kept;
    var i :| 0 <= i < |kept| && kept[i] == op;
    var bodies := Bodies(kept, Renderer(env)).value;
    var t := Rendered(ops, env).value;
    InfixConcat(bodies, i);
    BodyDeclares(op, env);
    var d := Declaration(op, false, env);
    ContainsInfix(bodies[i], d);
    InfixTrans(d, bodies[i], t.methods);
    InfixContains(d, t.methods);
    if |op.optional| > 0 {
      var d2 := Declaration(op, true, env);
      var s := "pub struct " + ClassName(op, env) + "Options {";
      ContainsInfix(bodies[i], d2);
      ContainsInfix(bodies[i], s);
      InfixTrans(d2, bodies[i], t.methods);
      InfixTrans(s, bodies[i], t.methods);
      InfixContains(d2, t.methods);
      InfixContains(s, t.methods);
    }
    InfixConcat(ErrorVariants(kept, env), i);
    InfixContains(ErrorVariant(op, env), t.errors);
    InfixConcat(ErrorDisplays(kept, env), i);
    InfixContains(ErrorDisplay(op, env), t.errorsDisplay);
  }

  // ---------------------------------------------------------------------------
  // The enumerations: gathered, sorted, repeats removed

  /** The `enum` declarations of all operations, blacklisted ones included, in
      order (the `.map(..).flatten()` of `main`). */
  function AllEnumerations(ops: seq<Operation>, env: Env): seq<string>
    decreases |ops|
  {
    if |ops| == 0 then [] else AllEnumerations(ops[..|ops| - 1], env) + OperationEnumerations(ops[|ops| - 1], env)
  }

  /** Rust's order on `String`: the lexicographic order of the UTF-8 bytes, which
      is the lexicographic order of the code points. */
  predicate NotAfter(a: string, b: string)
    decreases |a|
  {
    |a| == 0 || (|b| > 0 && (a[0] < b[0] || (a[0] == b[0] && NotAfter(a[1..], b[1..]))))
  }

  lemma {:induction false} NotAfterTotal(a: string, b: string)
    ensures NotAfter(a, b) || NotAfter(b, a)
    decreases |a|
  {
    if |a| > 0 && |b| > 0 && a[0] == b[0] {
      NotAfterTotal(a[1..], b[1..]);
    }
  }

  lemma {:induction false} NotAfterAntisymmetric(a: string, b: string)
    requires NotAfter(a, b) && NotAfter(b, a)
    ensures a == b
    decreases |a|
  {
    if |a| > 0 {
      NotAfterAntisymmetric(a[1..], b[1..]);
      assert a == [a[0]] + a[1..] && b == [b[0]] + b[1..];
    }
  }

  lemma {:induction false} NotAfterTransitive(a: string, b: string, c: string)
    requires NotAfter(a, b) && NotAfter(b, c)
    ensures NotAfter(a, c)
    decreases |a|
  {
    if |a| > 0 && a[0] == b[0] && b[0] == c[0] {
      NotAfterTransitive(a[1..], b[1..], c[1..]);
    }
  }

  predicate SortedStrings(s: seq<string>) {
    forall i, j :: 0 <= i < j < |s| ==> NotAfter(s[i], s[j])
  }

  /** `x` placed into a sorted sequence before the first element above it. */
  function Insert(x: string, s: seq<string>): seq<string>
    decreases |s|
  {
    if |s| == 0 then [x]
    else if NotAfter(x, s[0]) then [x] + s
    else [s[0]] + Insert(x, s[1..])
  }

  /** `Vec::sort` on strings, written as an insertion sort. */
  function SortStrings(s: seq<string>): seq<string>
    decreases |s|
  {
    if |s| == 0 then [] else Insert(s[0], SortStrings(s[1..]))
  }

  lemma {:induction false} InsertPermutes(x: string, s: seq<string>)
    ensures multiset(Insert(x, s)) == multiset(s) + multiset{x}
    decreases |s|
  {
    if |s| > 0 && !NotAfter(x, s[0]) {
      InsertPermutes(x, s[1..]);
      assert s == [s[0]] + s[1..];
    }
  }

  lemma {:induction false} InsertSorted(x: string, s: seq<string>)
    requires SortedStrings(s)
    ensures SortedStrings(Insert(x, s))
    decreases |s|
  {
    if |s| > 0 {
      if NotAfter(x, s[0]) {
        forall j | 0 < j < |s| + 1 ensures NotAfter(x, ([x] + s)[j]) {
          if j > 1 {
            NotAfterTransitive(x, s[0], s[j - 1]);
          }
        }
      } else {
        NotAfterTotal(x, s[0]);
        InsertSorted(x, s[1..]);
        InsertPermutes(x, s[1..]);
        var r := Insert(x, s[1..]);
        forall j | 0 <= j < |r| ensures NotAfter(s[0], r[j]) {
          assert r[j] in multiset(r);
          assert r[j] == x || r[j] in multiset(s[1..]);
          if r[j] != x {
            var k :| 0 <= k < |s[1..]| && s[1..][k] == r[j];
            assert s[1..][k] == s[k + 1];
          }
        }
      }
    }
  }

  /** The sort orders its result and only reorders its input. */
  lemma {:induction false} SortStringsCorrect(s: seq<string>)
    ensures SortedStrings(SortStrings(s))
    ensures multiset(SortStrings(s)) == multiset(s)
    decreases |s|
  {
    if |s| > 0 {
      SortStringsCorrect(s[1..]);
      InsertSorted(s[0], SortStrings(s[1..]));
      InsertPermutes(s[0], SortStrings(s[1..]));
      assert s == [s[0]] + s[1..];
    }
  }

  /** `Vec::dedup`: each run of equal neighbours kept once. */
  function Dedup(s: seq<string>): seq<string>
    decreases |s|
  {
    if |s| == 0 then []
    else
      var d := Dedup(s[..|s| - 1]);
      if |d| > 0 && d[|d| - 1] == s[|s| - 1] then d else d + [s[|s| - 1]]
  }

  lemma {:induction false} DedupShape(s: seq<string>)
    ensures forall x :: x in Dedup(s) <==> x in s
    ensures |s| > 0 ==> |Dedup(s)| > 0 && Dedup(s)[|Dedup(s)| - 1] == s[|s| - 1]
    ensures forall i :: 0 <= i < |Dedup(s)| - 1 ==> Dedup(s)[i] != Dedup(s)[i + 1]
    ensures SortedStrings(s) ==> SortedStrings(Dedup(s))
    decreases |s|
  {
    if |s| > 0 {
      var init := s[..|s| - 1];
      DedupShape(init);
      var d := Dedup(init);
      assert s == init + [s[|s| - 1]];
      if SortedStrings(s) {
        assert SortedStrings(init) by {
          forall i, j | 0 <= i < j < |init| ensures NotAfter(init[i], init[j]) {
            assert init[i] == s[i] && init[j] == s[j];
          }
        }
        forall i | 0 <= i < |d| ensures NotAfter(d[i], s[|s| - 1]) {
          assert d[i] in init;
          var k :| 0 <= k < |init| && init[k] == d[i];
          assert init[k] == s[k];
        }
      }
    }
  }

  /** After sorting, equal declarations are neighbours, so removing repeated
      neighbours leaves no declaration twice. */
  lemma NoRepeatsAfterSort(s: seq<string>)
    ensures forall i, j :: 0 <= i < j < |Dedup(SortStrings(s))| ==> Dedup(SortStrings(s))[i] != Dedup(SortStrings(s))[j]
    ensures SortedStrings(Dedup(SortStrings(s)))
    ensures forall x :: x in Dedup(SortStrings(s)) <==> x in s
  {
    var sorted := SortStrings(s);
    SortStringsCorrect(s);
    DedupShape(sorted);
    var d := Dedup(sorted);
    forall x ensures x in sorted <==> x in s {
      assert x in sorted <==> x in multiset(sorted);
      assert x in s <==> x in multiset(s);
    }
    forall i, j | 0 <= i < j < |d| ensures d[i] != d[j] {
      if d[i] == d[j] {
        assert NotAfter(d[i], d[i + 1]) && NotAfter(d[i + 1], d[j]);
        NotAfterAntisymmetric(d[i], d[i + 1]);
      }
    }
  }

  /** The `enum` declarations of the ops module: gathered from every operation,
      sorted, and each run of equal neighbours kept once. */
  method Enumerations(ops: seq<Operation>, env: Env) returns (enums: seq<string>)
    ensures enums == Dedup(SortStrings(AllEnumerations(ops, env)))
  {
    var all: seq<string> := [];
    var i := 0;
    while i < |ops|
      invariant 0 <= i <= |ops|
      invariant all == AllEnumerations(ops[..i], env)
    {
      AllEnumerationsStep(ops, i, env);
      all := all + OperationEnumerations(ops[i], env);
      i := i + 1;
    }
    assert ops[..i] == ops;
    var sorted := SortStrings(all);
    enums := [];
    var k := 0;
    while k < |sorted|
      invariant 0 <= k <= |sorted|
      invariant enums == Dedup(sorted[..k])
    {
      DedupStep(sorted, k);
      if |enums| == 0 || enums[|enums| - 1] != sorted[k] {
        enums := enums + [sorted[k]];
      }
      k := k + 1;
    }
    assert sorted[..k] == sorted;
  }

  lemma AllEnumerationsStep(ops: seq<Operation>, i: nat, env: Env)
    requires i < |ops|
    ensures AllEnumerations(ops[..i + 1], env) == AllEnumerations(ops[..i], env) + OperationEnumerations(ops[i], env)
  {
    assert ops[..i + 1][..i] == ops[..i];
  }

  lemma DedupStep(s: seq<string>, k: nat)
    requires k < |s|
    ensures var d := Dedup(s[..k]);
      Dedup(s[..k + 1]) == if |d| > 0 && d[|d| - 1] == s[k] then d else d + [s[k]]
  {
    assert s[..k + 1][..k] == s[..k];
  }

  lemma {:induction false} AllEnumerationsHold(ops: seq<Operation>, env: Env, op: Operation, d: string)
    requires op in ops && d in OperationEnumerations(op, env)
    ensures d in AllEnumerations(ops, env)
    decreases |ops|
  {
    if op != ops[|ops| - 1] {
      assert op in ops[..|ops| - 1];
      AllEnumerationsHold(ops[..|ops| - 1], env, op, d);
    }
  }

  /** Every enumeration kind of every parameter of every operation, blacklisted
      or not, is declared once among the declarations of the ops module. */
  lemma EnumerationsDeclaredOnce(ops: seq<Operation>, env: Env, op: Operation, p: Parameter)
    requires op in ops && p in op.required + op.optional + op.output && p.paramType.Enum?
    ensures EnumerationText(p.paramType, env) in Dedup(SortStrings(AllEnumerations(ops, env)))
    ensures forall i, j :: 0 <= i < j < |Dedup(SortStrings(AllEnumerations(ops, env)))| ==>
      Dedup(SortStrings(AllEnumerations(ops, env)))[i] != Dedup(SortStrings(AllEnumerations(ops, env)))[j]
  {
    OperationEnumerationsDeclare(op, env);
    AllEnumerationsHold(ops, env, op, EnumerationText(p.paramType, env));
    NoRepeatsAfterSort(AllEnumerations(ops, env));
  }

  // ---------------------------------------------------------------------------
  // The two modules

  /** The fixed text of the two templates, around the four places where the
      generated text goes: `opsHead` precedes the enumerations of `ops.rs`;
      `errorHead`, `errorMiddle` and `errorTail` surround the variants and the
      `Display` arms of `error.rs`. */
  datatype Templates = Templates(opsHead: string, errorHead: string, errorMiddle: string, errorTail: string)

  /** The fixed text `main` writes: the imports and the `NULL` constant of
      `ops.rs`; the derive, the enum header, the four fixed variants, the
      `Display` implementation with its four fixed arms and the
      `std::error::Error` implementation of `error.rs`. */
  const SourceTemplates: Templates := Templates(
    "\n    use std::ffi::*;\n    use std::ptr::null_mut;\n    use std::convert::TryInto;\n    use crate::bindings;\n    use crate::utils;\n    use crate::VipsImage;\n    use crate::VipsInterpolate;\n    use crate::VipsBlob;\n    use crate::error::*;\n    use crate::Result;\n\n    const NULL: *const c_void = null_mut();\n    ",
    "\n    #[derive(Debug)]\n    pub enum Error {\n        InitializationError(&'static str),\n        IOError(&'static str),\n        LinearError,\n        GetpointError,\n        ",
    "\n    }\n\n    impl std::fmt::Display for Error {\n        fn fmt(&self, f: &mut std::fmt::Formatter<'_>) -> std::fmt::Result {\n            match self {\n                Error::InitializationError(msg) => write!(f, \"vips error: InitializationError - {}\", msg),\n                Error::IOError(msg) => write!(f, \"vips error: IOError - {}\", msg),\n                Error::LinearError => write!(f, \"vips error: LinearError. Check error buffer for more details\"),\n                Error::GetpointError => write!(f, \"vips error: GetpointError. Check error buffer for more details\"),\n                ",
    "\n            }\n        }\n    }\n\n    impl std::error::Error for Error {}\n\n    ")

  /** The template of `ops.rs`. */
  function OpsParts(tpl: Templates, enums: seq<string>, methods: string): seq<string> {
    [tpl.opsHead, Join(enums, "\n"), Indent(4), methods, Indent(4)]
  }

  /** The template of `error.rs`. */
  function ErrorParts(tpl: Templates, errors: string, errorsDisplay: string): seq<string> {
    [tpl.errorHead, errors, tpl.errorMiddle, errorsDisplay, tpl.errorTail]
  }

  /** The generated `ops.rs` and `error.rs`, before formatting. */
  datatype Modules = Modules(ops: string, errors: string)

  function OpsModule(tpl: Templates, enums: seq<string>, methods: string): string {
    Concat(OpsParts(tpl, enums, methods))
  }

  function ErrorModule(tpl: Templates, errors: string, errorsDisplay: string): string {
    Concat(ErrorParts(tpl, errors, errorsDisplay))
  }

  /** The `enum` declarations of the ops module. */
  function EnumerationsOf(ops: seq<Operation>, env: Env): seq<string> {
    Dedup(SortStrings(AllEnumerations(ops, env)))
  }

  /** The two modules for the fixed text `tpl`, or the first panic of the fold. */
  function ModulesFrom(tpl: Templates, ops: seq<Operation>, env: Env): Result<Modules> {
    match Rendered(ops, env)
    case Err(e) => Err(e)
    case Ok(t) => Ok(Modules(OpsModule(tpl, EnumerationsOf(ops, env), t.methods), ErrorModule(tpl, t.errors, t.errorsDisplay)))
  }

  /** The text-producing part of `main`: the fold, the enumerations and the two
      module templates filled in. `main` passes `SourceTemplates`. */
  method Generate(tpl: Templates, ops: seq<Operation>, env: Env) returns (r: Result<Modules>)
    ensures r == ModulesFrom(tpl, ops, env)
  {
    var texts := Fold(ops, Renderer(env), env);
    if texts.Err? {
      return Err(texts.error);
    }
    var enums := Enumerations(ops, env);
    var t := texts.value;
    r := Ok(Modules(OpsModule(tpl, enums, t.methods), ErrorModule(tpl, t.errors, t.errorsDisplay)));
  }

  /** The ops module holds both wrappers of every operation that is not
      blacklisted; the error module holds such an operation's variant and its
      `Display` arm. This holds whatever the fixed text of the templates. */
  lemma ModulesDeclare(tpl: Templates, ops: seq<Operation>, env: Env, op: Operation)
    requires ModulesFrom(tpl, ops, env).Ok? && op in ops && !Blacklisted(op)
    ensures Infix(Declaration(op, false, env), ModulesFrom(tpl, ops, env).value.ops)
    ensures Infix(ErrorVariant(op, env), ModulesFrom(tpl, ops, env).value.errors)
    ensures Infix(ErrorDisplay(op, env), ModulesFrom(tpl, ops, env).value.errors)
    ensures |op.optional| > 0 ==> Infix(Declaration(op, true, env), ModulesFrom(tpl, ops, env).value.ops)
  {
    ModulesText(tpl, ops, env);
    ModulesHoldWrappers(tpl, ops, env, op);
  }

  /** The ops module holds every `enum` declaration of every operation,
      blacklisted or not, whatever the fixed text of the templates. */
  lemma ModulesDeclareEnumerations(tpl: Templates, ops: seq<Operation>, env: Env, op: Operation)
    requires ModulesFrom(tpl, ops, env).Ok? && op in ops
    ensures forall d :: d in OperationEnumerations(op, env) ==> Infix(d, ModulesFrom(tpl, ops, env).value.ops)
  {
    ModulesText(tpl, ops, env);
    forall d | d in OperationEnumerations(op, env)
      ensures Infix(d, ModulesFrom(tpl, ops, env).value.ops)
    {
      ModulesHoldEnumeration(tpl, ops, env, op, d);
    }
  }

  lemma ModulesText(tpl: Templates, ops: seq<Operation>, env: Env)
    requires ModulesFrom(tpl, ops, env).Ok?
    ensures Rendered(ops, env).Ok?
    ensures var t := Rendered(ops, env).value;
      ModulesFrom(tpl, ops, env).value ==
        Modules(OpsModule(tpl, EnumerationsOf(ops, env), t.methods), ErrorModule(tpl, t.errors, t.errorsDisplay))
  {
  }

  lemma ModulesHoldWrappers(tpl: Templates, ops: seq<Operation>, env: Env, op: Operation)
    requires Rendered(ops, env).Ok? && op in ops && !Blacklisted(op)
    ensures Infix(Declaration(op, false, env), OpsModule(tpl, EnumerationsOf(ops, env), Rendered(ops, env).value.methods))
    ensures var t := Rendered(ops, env).value;
      Infix(ErrorVariant(op, env), ErrorModule(tpl, t.errors, t.errorsDisplay)) &&
      Infix(ErrorDisplay(op, env), ErrorModule(tpl, t.errors, t.errorsDisplay))
    ensures |op.optional| > 0 ==>
      Infix(Declaration(op, true, env), OpsModule(tpl, EnumerationsOf(ops, env), Rendered(ops, env).value.methods))
  {
    RenderedDeclares(ops, env, op);
    WrappersHeld(tpl, EnumerationsOf(ops, env), Rendered(ops, env).value, Declaration(op, false, env),
      Declaration(op, true, env), ErrorVariant(op, env), ErrorDisplay(op, env), |op.optional| > 0);
  }

  /** Whatever the fold's texts hold, the modules hold. */
  lemma WrappersHeld(tpl: Templates, enums: seq<string>, t: Texts, plain: string, withOptions: string,
                     variant: string, display: string, optional: bool)
    requires |plain| > 0 && |withOptions| > 0 && |variant| > 0 && |display| > 0
    requires Contains(t.methods, plain) && Contains(t.errors, variant) && Contains(t.errorsDisplay, display)
    requires optional ==> Contains(t.methods, withOptions)
    ensures Infix(plain, OpsModule(tpl, enums, t.methods))
    ensures Infix(variant, ErrorModule(tpl, t.errors, t.errorsDisplay))
    ensures Infix(display, ErrorModule(tpl, t.errors, t.errorsDisplay))
    ensures optional ==> Infix(withOptions, OpsModule(tpl, enums, t.methods))
  {
    OpsHoldMethods(tpl, enums, t.methods, plain);
    ErrorsHold(tpl, t.errors, t.errorsDisplay, variant);
    ErrorsHold(tpl, t.errors, t.errorsDisplay, display);
    if optional {
      OpsHoldMethods(tpl, enums, t.methods, withOptions);
    }
  }

  lemma ModulesHoldEnumeration(tpl: Templates, ops: seq<Operation>, env: Env, op: Operation, d: string)
    requires op in ops && d in OperationEnumerations(op, env)
    ensures forall methods :: Infix(d, OpsModule(tpl, EnumerationsOf(ops, env), methods))
  {
    AllEnumerationsHold(ops, env, op, d);
    NoRepeatsAfterSort(AllEnumerations(ops, env));
    forall methods ensures Infix(d, OpsModule(tpl, EnumerationsOf(ops, env), methods)) {
      OpsHoldEnumeration(tpl, EnumerationsOf(ops, env), methods, d);
    }
  }

  lemma OpsHoldMethods(tpl: Templates, enums: seq<string>, methods: string, x: string)
    requires |x| > 0 && Contains(methods, x)
    ensures Infix(x, OpsModule(tpl, enums, methods))
  {
    var parts := OpsParts(tpl, enums, methods);
    InfixConcat(parts, 3);
    ContainsInfix(methods, x);
    InfixTrans(x, methods, Concat(parts));
  }

  lemma OpsHoldEnumeration(tpl: Templates, enums: seq<string>, methods: string, d: string)
    requires |d| > 0 && d in enums
    ensures Infix(d, OpsModule(tpl, enums, methods))
  {
    var parts := OpsParts(tpl, enums, methods);
    var k :| 0 <= k < |enums| && enums[k] == d;
    InfixJoin(enums, "\n", k);
    InfixConcat(parts, 1);
    InfixTrans(d, parts[1], Concat(parts));
  }

  lemma ErrorsHold(tpl: Templates, errors: string, errorsDisplay: string, x: string)
    requires |x| > 0 && (Contains(errors, x) || Contains(errorsDisplay, x))
    ensures Infix(x, ErrorModule(tpl, errors, errorsDisplay))
  {
    var parts := ErrorParts(tpl, errors, errorsDisplay);
    var k := if Contains(errors, x) then 1 else 3;
    InfixConcat(parts, k);
    ContainsInfix(parts[k], x);
    InfixTrans(x, parts[k], Concat(parts));
  }
}
