/** The text-producing part of `main` end to end: the introspection dump is read
    by `parse_output` and the operations it yields are rendered into the two
    modules. */
module Pipeline {
  import opened Base
  import opened Text
  import opened Foreign
  import opened Types
  import opened Parser
  import opened Catalogue
  import opened Emitter
  import opened Generator

  /** The modules written for an introspection dump with the templates' fixed
      text `tpl`, or the first panic on the way; `main` passes
      `SourceTemplates`. */
  function Build(tpl: Templates, dump: string, env: Env): Result<Modules> {
    match Operations(dump, env)
    case Err(e) => Err(e)
    case Ok(ops) => ModulesFrom(tpl, ops, env)
  }

  method BuildModules(tpl: Templates, dump: string, env: Env) returns (r: Result<Modules>)
    ensures r == Build(tpl, dump, env)
  {
    var ops := ParseOutput(dump, env);
    if ops.Err? {
      return Err(ops.error);
    }
    r := Generate(tpl, ops.value, env);
  }

  /** For a dump printed from a well-formed catalogue, the modules are those of
      the operations the catalogue describes. */
  lemma BuildFromCatalogue(tpl: Templates, specs: seq<OperationSpec>, env: Env)
    requires CatalogueWellFormed(specs, env)
    ensures Build(tpl, Dump(specs), env) == ModulesFrom(tpl, ExpectedOperations(specs, env), env)
  {
    DumpRoundTrip(specs, env);
  }

  // ---------------------------------------------------------------------------
  // The positional arguments of the native call

  lemma {:induction false} IncreasingAtLeast(ps: seq<Parameter>, i: nat)
    requires OrdersIncreasing(ps) && i < |ps|
    ensures ps[i].order as int >= i
    decreases i
  {
    if i > 0 {
      IncreasingAtLeast(ps, i - 1);
    }
  }

  lemma {:induction false} IncreasingAtMost(ps: seq<Parameter>, n: nat, i: nat)
    requires OrdersIncreasing(ps) && |ps| == n && i < n
    requires forall j :: 0 <= j < |ps| ==> ps[j].order as int < n
    ensures ps[i].order as int <= i
    decreases n - i
  {
    if i < n - 1 {
      IncreasingAtMost(ps, n, i + 1);
    }
  }

  /** The orders of an operation's required and output arguments are exactly
      `0 .. n-1`, so sorting them by order puts argument `i` at position `i`:
      the positional arguments of the native call are in introspection order. */
  lemma PositionalOrder(required: seq<Parameter>, output: seq<Parameter>, n: nat)
    requires Numbered(required, output, n)
    ensures |SortByOrder(required + output)| == n
    ensures forall i :: 0 <= i < n ==> SortByOrder(required + output)[i].order as int == i
  {
    NumberedDistinct(required, output, n);
    SortedBelow(required + output, n);
    var sorted := SortByOrder(required + output);
    forall i | 0 <= i < n ensures sorted[i].order as int == i {
      IncreasingAtLeast(sorted, i);
      IncreasingAtMost(sorted, n, i);
    }
  }

  lemma NumberedDistinct(required: seq<Parameter>, output: seq<Parameter>, n: nat)
    requires Numbered(required, output, n)
    ensures OrdersDistinct(required + output)
    ensures |required + output| == n && forall p :: p in required + output ==> p.order as int < n
  {
    var ps := required + output;
    forall i, j | 0 <= i < j < |ps| ensures ps[i].order != ps[j].order {
      if j < |required| {
        assert ps[i] == required[i] && ps[j] == required[j];
      } else if i >= |required| {
        assert ps[i] == output[i - |required|] && ps[j] == output[j - |required|];
      } else {
        assert ps[i] == required[i] && ps[j] == output[j - |required|];
      }
    }
    forall p | p in ps ensures p.order as int < n {
      var k :| 0 <= k < |ps| && ps[k] == p;
      if k < |required| {
        assert ps[k] == required[k];
      } else {
        assert ps[k] == output[k - |required|];
      }
    }
  }

  lemma SortedBelow(ps: seq<Parameter>, n: nat)
    requires OrdersDistinct(ps) && |ps| == n && forall p :: p in ps ==> p.order as int < n
    ensures OrdersIncreasing(SortByOrder(ps)) && |SortByOrder(ps)| == n
    ensures forall j :: 0 <= j < n ==> SortByOrder(ps)[j].order as int < n
  {
    var sorted := SortByOrder(ps);
    SortByOrderIncreasing(ps);
    SortByOrderPermutes(ps);
    assert |sorted| == |multiset(sorted)| == |multiset(ps)| == n;
    forall j | 0 <= j < n ensures sorted[j].order as int < n {
      assert sorted[j] in ps;
    }
  }

  lemma {:induction false} OperationsFromChunks(chunks: seq<string>, env: Env)
    requires OperationsOf(chunks, env).Ok?
    ensures forall op :: op in OperationsOf(chunks, env).value ==>
      exists c :: c in chunks && OperationOf(c, env) == Ok(op)
    decreases |chunks|
  {
    if |chunks| > 0 {
      OperationsOfCons(chunks, env);
      OperationsFromChunks(chunks[1..], env);
      var first := OperationOf(chunks[0], env).value;
      forall op | op in OperationsOf(chunks, env).value
        ensures exists c :: c in chunks && OperationOf(c, env) == Ok(op)
      {
        if op != first {
          assert op in OperationsOf(chunks[1..], env).value;
          var c :| c in chunks[1..] && OperationOf(c, env) == Ok(op);
          assert c in chunks;
        } else {
          assert chunks[0] in chunks;
        }
      }
    }
  }

  lemma OperationsOfCons(chunks: seq<string>, env: Env)
    requires |chunks| > 0 && OperationsOf(chunks, env).Ok?
    ensures OperationOf(chunks[0], env).Ok? && OperationsOf(chunks[1..], env).Ok?
    ensures OperationsOf(chunks, env).value == [OperationOf(chunks[0], env).value] + OperationsOf(chunks[1..], env).value
  {
  }

  /** An operation read from a dump, except `VipsAffine`, numbers its required
      and output arguments `0 .. n-1`. */
  lemma ParsedNumbered(dump: string, env: Env, op: Operation)
    requires Operations(dump, env).Ok? && op in Operations(dump, env).value
    requires op.vipsOperation != "VipsAffine"
    ensures Numbered(op.required, op.output, |op.required| + |op.output|)
  {
    var chunks := Chunks(dump);
    assert OperationsOf(chunks, env).Ok? && op in OperationsOf(chunks, env).value;
    OperationsFromChunks(chunks, env);
    var c :| c in chunks && OperationOf(c, env) == Ok(op);
    ChunkNumbered(c, env, op);
  }

  lemma ChunkNumbered(chunk: string, env: Env, op: Operation)
    requires OperationOf(chunk, env) == Ok(op) && op.vipsOperation != "VipsAffine"
    ensures Numbered(op.required, op.output, |op.required| + |op.output|)
  {
    OperationInvariants(chunk, env);
  }

  /** Every operation read from a dump, except `VipsAffine`, passes its required
      and output arguments to the native call in the order the dump lists them. */
  lemma CallsInDumpOrder(dump: string, env: Env, op: Operation)
    requires Operations(dump, env).Ok? && op in Operations(dump, env).value
    requires op.vipsOperation != "VipsAffine"
    ensures |SortByOrder(op.required + op.output)| == |op.required| + |op.output|
    ensures forall i :: 0 <= i < |op.required| + |op.output| ==>
      SortByOrder(op.required + op.output)[i].order as int == i
  {
    ParsedNumbered(dump, env, op);
    PositionalOrder(op.required, op.output, |op.required| + |op.output|);
  }

  /** When the argument in position `j` carries order `j` and the inputs and
      outputs it splits into are numbered, sorting the two lists by order gives
      back the arguments' parameters in their original positions. */
  lemma SortedSelected(ps: seq<Parsed>)
    requires forall j :: 0 <= j < |ps| ==> ps[j].param.order as int == j
    requires Numbered(Selected(ps, false), Selected(ps, true), |ps|)
    ensures |SortByOrder(Selected(ps, false) + Selected(ps, true))| == |ps|
    ensures forall i :: 0 <= i < |ps| ==> SortByOrder(Selected(ps, false) + Selected(ps, true))[i] == ps[i].param
  {
    var all := Selected(ps, false) + Selected(ps, true);
    PositionalOrder(Selected(ps, false), Selected(ps, true), |ps|);
    SortByOrderPermutes(all);
    SelectedFrom(ps, false);
    SelectedFrom(ps, true);
    ParametersFromArguments(SortByOrder(all), all, ps);
  }

  lemma ParametersFromArguments(sorted: seq<Parameter>, all: seq<Parameter>, ps: seq<Parsed>)
    requires |sorted| == |ps| && forall i :: 0 <= i < |sorted| ==> sorted[i].order as int == i
    requires forall p :: p in all <==> p in sorted
    requires forall p :: p in all ==> exists j :: 0 <= j < |ps| && ps[j].param == p
    requires forall j :: 0 <= j < |ps| ==> ps[j].param.order as int == j
    ensures forall i :: 0 <= i < |ps| ==> sorted[i] == ps[i].param
  {
    forall i | 0 <= i < |ps|
      ensures sorted[i] == ps[i].param
    {
      assert sorted[i] in sorted;
      var j :| 0 <= j < |ps| && ps[j].param == sorted[i];
    }
  }

  /** The parameter the generator should make of the argument in position `i`
      carries order `i`. */
  lemma ExpectedOrders(args: seq<Argument>, env: Env)
    requires |args| <= 255 && ArgumentsWellFormed(args, env)
    ensures forall j :: 0 <= j < |args| ==> ExpectedRequired(args, env)[j].param.order as int == j
  {
  }

  /** For a printed well-formed catalogue, the native call of the `k`-th operation
      receives at position `i` the parameter of the `i`-th argument of that
      operation's required block, whether an input or an output. */
  lemma CatalogueCallOrder(specs: seq<OperationSpec>, env: Env, k: nat)
    requires CatalogueWellFormed(specs, env) && k < |specs|
    ensures SpecWellFormed(specs[k], env)
    ensures Operations(Dump(specs), env).Ok? && |Operations(Dump(specs), env).value| == |specs|
    ensures var op := Operations(Dump(specs), env).value[k];
      var e := ExpectedRequired(specs[k].required, env);
      |SortByOrder(op.required + op.output)| == |e| &&
      forall i :: 0 <= i < |e| ==> SortByOrder(op.required + op.output)[i] == e[i].param
  {
    DumpRoundTrip(specs, env);
    CatalogueAt(specs, env, k);
    var ops := Operations(Dump(specs), env).value;
    var op := ops[k];
    assert op in ops;
    var e := ExpectedRequired(specs[k].required, env);
    assert op.required == Selected(e, false) && op.output == Selected(e, true);
    ParsedNumbered(Dump(specs), env, op);
    SelectedCount(e);
    ExpectedOrders(specs[k].required, env);
    SortedSelected(e);
  }
}
