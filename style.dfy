/**
 * The style engine of `exports.style`: a style reference (a style record, a
 * registry name, or a list of references) applied to a JSON value. A single
 * style runs its filter, then its reduce, then its map; each step looks at
 * whether the value it is given is an array.
 */
module StyleEngine {
  import opened JsonValue
  import opened Errors

  /**
   * A style record. Every field is optional; the callbacks are pure functions
   * (the extra `(index, array)` arguments the array builtins pass are not modelled).
   */
  datatype Style = Style(
    filter: Option<Json -> bool>,
    reduce: Option<(Json, Json) -> Json>,
    reduceInitialValue: Option<Json>,
    mapper: Option<Json -> Json>)

  /** What `exports.style` accepts as its second argument. */
  datatype StyleRef =
    | Inline(style: Style)
    | Named(name: string)
    | Chain(refs: seq<StyleRef>)

  /** The loaded styles, by name (`exports.styles`). */
  type Registry = map<string, Style>

  // ---------------------------------------------------------------------------
  // The array builtins the engine calls
  // ---------------------------------------------------------------------------

  /** `r` can be obtained from `xs` by deleting elements, keeping the order of the rest. */
  predicate IsSubsequence(r: seq<Json>, xs: seq<Json>)
    decreases |xs|
  {
    r == [] || (xs != [] && ((r[0] == xs[0] && IsSubsequence(r[1..], xs[1..])) || IsSubsequence(r, xs[1..])))
  }

  /**
   * What Array.prototype.filter promises: an order-preserving selection of `xs`
   * whose elements all satisfy `p` and which keeps every occurrence of each
   * element that satisfies `p`.
   */
  ghost predicate IsFilterOf(r: seq<Json>, xs: seq<Json>, p: Json -> bool)
  {
    && IsSubsequence(r, xs)
    && (forall i :: 0 <= i < |r| ==> p(r[i]))
    && (forall x :: multiset(r)[x] == if p(x) then multiset(xs)[x] else 0)
  }

  /** Array.prototype.filter(p). */
  function FilterSeq(xs: seq<Json>, p: Json -> bool): (r: seq<Json>)
    ensures |r| <= |xs|
    ensures forall i :: 0 <= i < |r| ==> p(r[i])
    ensures IsSubsequence(r, xs)
  {
    if xs == [] then []
    else if p(xs[0]) then [xs[0]] + FilterSeq(xs[1..], p)
    else FilterSeq(xs[1..], p)
  }

  /** Array.prototype.map(f). */
  function MapSeq(xs: seq<Json>, f: Json -> Json): (r: seq<Json>)
    ensures |r| == |xs|
    ensures forall i :: 0 <= i < |xs| ==> r[i] == f(xs[i])
  {
    if xs == [] then [] else [f(xs[0])] + MapSeq(xs[1..], f)
  }

  /** The accumulation loop of Array.prototype.reduce, from accumulator `acc`. */
  function FoldLeft(f: (Json, Json) -> Json, acc: Json, xs: seq<Json>): Json
    decreases |xs|
  {
    if xs == [] then acc else FoldLeft(f, f(acc, xs[0]), xs[1..])
  }

  /** Array.prototype.reduce(f) when `init` is None, reduce(f, init) otherwise; the builtin throws on an empty array without an initial value. */
  function NativeReduce(xs: seq<Json>, f: (Json, Json) -> Json, init: Option<Json>): (r: Result<Json>)
    ensures r.Err? <==> init.None? && xs == []
    ensures r.Err? ==> r.error == EmptyReduce
  {
    match init
    case Some(z) => Ok(FoldLeft(f, z, xs))
    case None => if xs == [] then Err(EmptyReduce) else Ok(FoldLeft(f, xs[0], xs[1..]))
  }

  // ---------------------------------------------------------------------------
  // One style, step by step (the specification)
  // ---------------------------------------------------------------------------

  /** The filter step; None is the early `return null` for a non-array the predicate rejects. */
  function FilterStep(data: Json, s: Style): (r: Option<Json>)
    ensures r.None? <==> s.filter.Some? && !data.Arr? && !s.filter.value(data)
    ensures r.Some? && !(s.filter.Some? && data.Arr?) ==> r.value == data
    ensures s.filter.Some? && data.Arr? ==>
      r.Some? && r.value.Arr? && IsFilterOf(r.value.elems, data.elems, s.filter.value)
  {
    match s.filter
    case None => Some(data)
    case Some(p) =>
      if data.Arr? then
        FilterSeqIsFilter(data.elems, p, []);
        Some(Arr(FilterSeq(data.elems, p)))
      else if !p(data) then None
      else Some(data)
  }

  /** The initial value the code passes to reduce: only a truthy `reduceInitialValue` is passed. */
  function SeedOf(s: Style): Option<Json>
  {
    if s.reduceInitialValue.Some? && Truthy(s.reduceInitialValue.value) then s.reduceInitialValue else None
  }

  /** The reduce step: it runs only on arrays. */
  function ReduceStep(data: Json, s: Style): (r: Result<Json>)
    ensures !(s.reduce.Some? && data.Arr?) ==> r == Ok(data)
    ensures r.Err? <==> s.reduce.Some? && data == Arr([]) && SeedOf(s).None?
    ensures r.Err? ==> r.error == EmptyReduce
    ensures s.reduce.Some? && data.Arr? && SeedOf(s).Some? ==>
      r == Ok(FoldLeft(s.reduce.value, SeedOf(s).value, data.elems))
    ensures s.reduce.Some? && data.Arr? && SeedOf(s).None? && data.elems != [] ==>
      r == Ok(FoldLeft(s.reduce.value, data.elems[0], data.elems[1..]))
  {
    if s.reduce.Some? && data.Arr? then NativeReduce(data.elems, s.reduce.value, SeedOf(s))
    else Ok(data)
  }

  /** The map step: elementwise on an array, on the whole value otherwise. */
  function MapStep(data: Json, s: Style): (r: Json)
    ensures s.mapper.None? ==> r == data
    ensures s.mapper.Some? && !data.Arr? ==> r == s.mapper.value(data)
    ensures s.mapper.Some? && data.Arr? ==>
      r.Arr? && |r.elems| == |data.elems| && forall i :: 0 <= i < |data.elems| ==> r.elems[i] == s.mapper.value(data.elems[i])
  {
    match s.mapper
    case None => data
    case Some(m) => if data.Arr? then Arr(MapSeq(data.elems, m)) else m(data)
  }

  /** One style record applied to `data`: filter, then reduce, then map. */
  function StyledOne(data: Json, s: Style): (r: Result<Json>)
    ensures s.filter.Some? && !data.Arr? && !s.filter.value(data) ==> r == Ok(Null)
    ensures r.Err? ==> r.error == EmptyReduce && s.reduce.Some? && SeedOf(s).None?
    ensures s.reduce.None? ==> r.Ok?
  {
    match FilterStep(data, s)
    case None => Ok(Null)
    case Some(filtered) =>
      match ReduceStep(filtered, s)
      case Err(e) => Err(e)
      case Ok(reduced) => Ok(MapStep(reduced, s))
  }

  /** A style reference applied to `data`. */
  function Styled(data: Json, ref: StyleRef, registry: Registry): (r: Result<Json>)
    ensures r.Err? ==> r.error == EmptyReduce || (r.error.StyleNotFound? && r.error.name !in registry)
    ensures ref.Named? && ref.name !in registry ==> r == Err(StyleNotFound(ref.name))
    decreases ref
  {
    match ref
    case Inline(s) => StyledOne(data, s)
    case Named(name) => if name in registry then StyledOne(data, registry[name]) else Err(StyleNotFound(name))
    case Chain(refs) => StyledAll(data, refs, registry)
  }

  /** A list of references, each applied to the result of the one before. */
  function StyledAll(data: Json, refs: seq<StyleRef>, registry: Registry): (r: Result<Json>)
    ensures refs == [] ==> r == Ok(data)
    ensures r.Err? ==> r.error == EmptyReduce || (r.error.StyleNotFound? && r.error.name !in registry)
    decreases refs
  {
    if refs == [] then Ok(data)
    else
      match Styled(data, refs[0], registry)
      case Err(e) => Err(e)
      case Ok(next) => StyledAll(next, refs[1..], registry)
  }

  /** Continue a partial chain result with more references. */
  function Then(r: Result<Json>, refs: seq<StyleRef>, registry: Registry): Result<Json>
  {
    match r
    case Err(e) => Err(e)
    case Ok(d) => StyledAll(d, refs, registry)
  }

  // ---------------------------------------------------------------------------
  // exports.style, as the code runs it
  // ---------------------------------------------------------------------------

  /**
   * `exports.style(data, ref)`: a chain reassigns its running value once per
   * element; a name is resolved through the registry; a single style then
   * overwrites the value by its filter, reduce and map steps in turn.
   */
  method Apply(data: Json, ref: StyleRef, registry: Registry) returns (r: Result<Json>)
    ensures r == Styled(data, ref, registry)
    decreases ref
  {
    var style: Style;
    match ref {
      case Chain(refs) =>
        var current := data;
        var i := 0;
        while i < |refs|
          invariant 0 <= i <= |refs|
          invariant StyledAll(data, refs[..i], registry) == Ok(current)
        {
          var step := Apply(current, refs[i], registry);
          assert refs[..i + 1] == refs[..i] + [refs[i]];
          StyledAllAppend(data, refs[..i], [refs[i]], registry);
          StyledAllSingle(current, refs[i], registry);
          if step.Err? {
            assert refs[..i + 1] + refs[i + 1..] == refs;
            StyledAllAppend(data, refs[..i + 1], refs[i + 1..], registry);
            return step;
          }
          current := step.value;
          i := i + 1;
        }
        assert refs[..i] == refs;
        return Ok(current);
      case Named(name) =>
        if name !in registry {
          return Err(StyleNotFound(name));
        }
        style := registry[name];
      case Inline(s) =>
        style := s;
    }

    var d := data;
    if style.filter.Some? {
      if d.Arr? {
        d := Arr(FilterSeq(d.elems, style.filter.value));
      } else if !style.filter.value(d) {
        return Ok(Null);
      }
    }
    if style.reduce.Some? {
      if d.Arr? {
        if style.reduceInitialValue.Some? && Truthy(style.reduceInitialValue.value) {
          assert SeedOf(style) == style.reduceInitialValue;
          d := NativeReduce(d.elems, style.reduce.value, style.reduceInitialValue).value;
        } else {
          assert SeedOf(style).None?;
          var reduced := NativeReduce(d.elems, style.reduce.value, None);
          if reduced.Err? {
            return reduced;
          }
          d := reduced.value;
        }
      }
    }
    if style.mapper.Some? {
      if d.Arr? {
        d := Arr(MapSeq(d.elems, style.mapper.value));
      } else {
        d := style.mapper.value(d);
      }
    }
    return Ok(d);
  }

  // ---------------------------------------------------------------------------
  // Chains and names
  // ---------------------------------------------------------------------------

  /** Applying `a + b` is applying `a`, then `b` to its result; an error in `a` ends the chain. */
  lemma {:induction false} StyledAllAppend(data: Json, a: seq<StyleRef>, b: seq<StyleRef>, registry: Registry)
    ensures StyledAll(data, a + b, registry) == Then(StyledAll(data, a, registry), b, registry)
    decreases a
  {
    if a == [] {
      assert a + b == b;
    } else {
      assert (a + b)[0] == a[0];
      assert (a + b)[1..] == a[1..] + b;
      match Styled(data, a[0], registry) {
        case Err(e) =>
        case Ok(next) => StyledAllAppend(next, a[1..], b, registry);
      }
    }
  }

  lemma StyledAllSingle(data: Json, ref: StyleRef, registry: Registry)
    ensures StyledAll(data, [ref], registry) == Styled(data, ref, registry)
  {
    assert [ref][1..] == [];
    assert [ref][0] == ref;
  }

  /** A chain applies each element in turn to the previous result: the empty chain is the identity, `[x]` is `x`, and `[a, b]` is `b` after `a`. */
  lemma ChainSteps(data: Json, a: StyleRef, b: StyleRef, registry: Registry)
    ensures Styled(data, Chain([]), registry) == Ok(data)
    ensures Styled(data, Chain([a]), registry) == Styled(data, a, registry)
    ensures Styled(data, Chain([a, b]), registry) ==
      if Styled(data, a, registry).Err? then Styled(data, a, registry)
      else Styled(Styled(data, a, registry).value, b, registry)
  {
    assert [a, b] == [a] + [b];
    StyledAllSingle(data, a, registry);
    StyledAllAppend(data, [a], [b], registry);
    if Styled(data, a, registry).Ok? {
      StyledAllSingle(Styled(data, a, registry).value, b, registry);
    }
  }

  /** A chain does not stop on null: a null intermediate result is handed to the next reference. */
  lemma ChainPassesNull(data: Json, refs: seq<StyleRef>, i: nat, registry: Registry)
    requires i < |refs|
    requires StyledAll(data, refs[..i], registry) == Ok(Null)
    ensures StyledAll(data, refs, registry) == StyledAll(Null, refs[i..], registry)
  {
    assert refs == refs[..i] + refs[i..];
    StyledAllAppend(data, refs[..i], refs[i..], registry);
  }

  /** A nested list is applied as if its elements stood in the enclosing list. */
  lemma {:induction false} ChainFlattens(data: Json, p: seq<StyleRef>, a: seq<StyleRef>, b: seq<StyleRef>, registry: Registry)
    ensures Styled(data, Chain(p + [Chain(a)] + b), registry) == StyledAll(data, p + a + b, registry)
  {
    assert p + [Chain(a)] + b == p + ([Chain(a)] + b);
    assert p + a + b == p + (a + b);
    StyledAllAppend(data, p, [Chain(a)] + b, registry);
    StyledAllAppend(data, p, a + b, registry);
    var prefix := StyledAll(data, p, registry);
    if prefix.Ok? {
      var d := prefix.value;
      StyledAllAppend(d, [Chain(a)], b, registry);
      StyledAllSingle(d, Chain(a), registry);
      StyledAllAppend(d, a, b, registry);
    }
  }

  /** The error raised for a missing name carries the message that quotes the name. */
  lemma MissingNameMessage(data: Json, name: string, registry: Registry)
    requires name !in registry
    ensures Styled(data, Named(name), registry).Err?
    ensures Message(Styled(data, Named(name), registry).error) == Some("Style `" + name + "` not found")
  {
  }

  /** A missing name is an error naming it; a present name behaves exactly like its registered record. */
  lemma NamedLookup(data: Json, name: string, registry: Registry)
    ensures name !in registry ==> Styled(data, Named(name), registry) == Err(StyleNotFound(name))
    ensures name in registry ==> Styled(data, Named(name), registry) == Styled(data, Inline(registry[name]), registry)
  {
  }

  // ---------------------------------------------------------------------------
  // Filter
  // ---------------------------------------------------------------------------

  lemma {:induction false} SubsequenceCounts(r: seq<Json>, xs: seq<Json>)
    requires IsSubsequence(r, xs)
    ensures multiset(r) <= multiset(xs)
    decreases |xs|
  {
    if r != [] {
      assert xs == [xs[0]] + xs[1..];
      if r[0] == xs[0] && IsSubsequence(r[1..], xs[1..]) {
        SubsequenceCounts(r[1..], xs[1..]);
        assert r == [r[0]] + r[1..];
      } else {
        SubsequenceCounts(r, xs[1..]);
      }
    }
  }

  lemma {:induction false} FilterSeqCounts(xs: seq<Json>, p: Json -> bool)
    ensures forall x :: multiset(FilterSeq(xs, p))[x] == if p(x) then multiset(xs)[x] else 0
  {
    if xs != [] {
      FilterSeqCounts(xs[1..], p);
      assert xs == [xs[0]] + xs[1..];
    }
  }

  /** When the first element is accepted, a filter of `xs` must start with it. */
  lemma FilterOfAcceptedHead(r: seq<Json>, xs: seq<Json>, p: Json -> bool)
    requires xs != [] && p(xs[0]) && IsFilterOf(r, xs, p)
    ensures r != [] && r[0] == xs[0] && IsFilterOf(r[1..], xs[1..], p)
  {
    var x0 := xs[0];
    assert xs == [x0] + xs[1..];
    assert multiset(r)[x0] == multiset(xs)[x0] > multiset(xs[1..])[x0];
    if !(r != [] && r[0] == x0 && IsSubsequence(r[1..], xs[1..])) {
      assert IsSubsequence(r, xs[1..]);
      SubsequenceCounts(r, xs[1..]);
      assert false;
    }
    var rest := r[1..];
    assert r == [x0] + rest;
    forall i | 0 <= i < |rest| ensures p(rest[i]) {
      assert rest[i] == r[i + 1];
    }
  }

  /** When the first element is rejected, a filter of `xs` is a filter of the rest. */
  lemma FilterOfRejectedHead(r: seq<Json>, xs: seq<Json>, p: Json -> bool)
    requires xs != [] && !p(xs[0]) && IsFilterOf(r, xs, p)
    ensures IsFilterOf(r, xs[1..], p)
  {
    var x0 := xs[0];
    assert xs == [x0] + xs[1..];
    assert r != [] ==> r[0] != x0 by {
      if r != [] {
        assert p(r[0]);
      }
    }
    assert IsSubsequence(r, xs[1..]);
    forall x ensures multiset(r)[x] == if p(x) then multiset(xs[1..])[x] else 0 {
      if p(x) {
        assert x != x0;
      }
    }
  }

  /** FilterSeq is Array.prototype.filter: its result is a filter of the input, and the only one. */
  lemma {:induction false} FilterSeqIsFilter(xs: seq<Json>, p: Json -> bool, r: seq<Json>)
    ensures IsFilterOf(FilterSeq(xs, p), xs, p)
    ensures IsFilterOf(r, xs, p) ==> r == FilterSeq(xs, p)
    decreases |xs|
  {
    FilterSeqCounts(xs, p);
    if IsFilterOf(r, xs, p) && xs != [] {
      if p(xs[0]) {
        FilterOfAcceptedHead(r, xs, p);
        FilterSeqIsFilter(xs[1..], p, r[1..]);
        assert r == [r[0]] + r[1..];
      } else {
        FilterOfRejectedHead(r, xs, p);
        FilterSeqIsFilter(xs[1..], p, r);
      }
    }
  }

  /** On an array the filter keeps exactly the elements its predicate accepts, in their order. */
  lemma FilterOnArray(xs: seq<Json>, s: Style)
    requires s.filter.Some?
    ensures FilterStep(Arr(xs), s).Some?
    ensures var r := FilterStep(Arr(xs), s).value;
      r.Arr? && IsFilterOf(r.elems, xs, s.filter.value) && |r.elems| <= |xs|
  {
    FilterSeqIsFilter(xs, s.filter.value, []);
  }

  /** On a non-array the predicate decides everything: false gives null without reduce or map, true leaves the value to the rest of the style. */
  lemma FilterOnScalar(data: Json, s: Style)
    requires !data.Arr? && s.filter.Some?
    ensures !s.filter.value(data) ==> StyledOne(data, s) == Ok(Null)
    ensures s.filter.value(data) ==> StyledOne(data, s) == StyledOne(data, s.(filter := None))
  {
  }

  // ---------------------------------------------------------------------------
  // Reduce
  // ---------------------------------------------------------------------------

  lemma {:induction false} FoldLeftAppend(f: (Json, Json) -> Json, acc: Json, xs: seq<Json>, ys: seq<Json>)
    ensures FoldLeft(f, acc, xs + ys) == FoldLeft(f, FoldLeft(f, acc, xs), ys)
    decreases |xs|
  {
    if xs == [] {
      assert xs + ys == ys;
    } else {
      assert (xs + ys)[0] == xs[0];
      assert (xs + ys)[1..] == xs[1..] + ys;
      FoldLeftAppend(f, f(acc, xs[0]), xs[1..], ys);
    }
  }

  /** FoldLeft is the reduce loop: each step combines the accumulator so far with the next element, from the left. */
  lemma FoldLeftStep(f: (Json, Json) -> Json, acc: Json, xs: seq<Json>, k: nat)
    requires k < |xs|
    ensures FoldLeft(f, acc, xs[..k + 1]) == f(FoldLeft(f, acc, xs[..k]), xs[k])
  {
    assert xs[..k + 1] == xs[..k] + [xs[k]];
    FoldLeftAppend(f, acc, xs[..k], [xs[k]]);
  }

  /** Reduce leaves a non-array as it is, whatever the style's reducer and seed. */
  lemma ReduceSkipsNonArray(data: Json, s: Style)
    requires !data.Arr?
    ensures StyledOne(data, s) == StyledOne(data, s.(reduce := None, reduceInitialValue := None))
  {
  }

  /**
   * On an array: a truthy seed starts a left fold from the seed; without one
   * (absent, or 0, "", false, null) the fold starts from element 0 over the
   * rest, and an empty array is an error.
   */
  lemma ReduceOnArray(xs: seq<Json>, s: Style)
    requires s.reduce.Some?
    ensures s.reduceInitialValue.Some? && Truthy(s.reduceInitialValue.value) ==>
      ReduceStep(Arr(xs), s) == Ok(FoldLeft(s.reduce.value, s.reduceInitialValue.value, xs))
    ensures !(s.reduceInitialValue.Some? && Truthy(s.reduceInitialValue.value)) && xs != [] ==>
      ReduceStep(Arr(xs), s) == Ok(FoldLeft(s.reduce.value, xs[0], xs[1..]))
    ensures ReduceStep(Arr(xs), s) == Err(EmptyReduce) <==>
      xs == [] && !(s.reduceInitialValue.Some? && Truthy(s.reduceInitialValue.value))
    ensures ReduceStep(Arr(xs), s) == ReduceStep(Arr(xs), s.(reduceInitialValue := SeedOf(s)))
  {
  }

  /** A falsy `reduceInitialValue` (0, "", false, null) acts exactly as an absent one, on any data. */
  lemma FalsySeedIsNoSeed(data: Json, s: Style)
    requires s.reduceInitialValue.Some? && !Truthy(s.reduceInitialValue.value)
    ensures StyledOne(data, s) == StyledOne(data, s.(reduceInitialValue := None))
  {
  }

  /** Reduce without a seed equals the builtin's reduce(f) without one. */
  lemma ReduceUnseededIsNative(xs: seq<Json>, s: Style)
    requires s.reduce.Some? && SeedOf(s).None?
    ensures ReduceStep(Arr(xs), s) == NativeReduce(xs, s.reduce.value, None)
  {
  }

  // ---------------------------------------------------------------------------
  // Map, and the order of the steps
  // ---------------------------------------------------------------------------

  /** Map sees the value the filter and reduce steps produced: an array is mapped elementwise, keeping length and order; anything else is passed to the map function once. */
  lemma MapAfterReduce(data: Json, s: Style, reduced: Json)
    requires s.mapper.Some?
    requires FilterStep(data, s).Some? && ReduceStep(FilterStep(data, s).value, s) == Ok(reduced)
    ensures StyledOne(data, s).Ok?
    ensures var r := StyledOne(data, s).value;
      if reduced.Arr? then
        r.Arr? && |r.elems| == |reduced.elems| && forall i :: 0 <= i < |r.elems| ==> r.elems[i] == s.mapper.value(reduced.elems[i])
      else r == s.mapper.value(reduced)
  {
  }

  /** The steps always run filter, then reduce, then map, on an array with every field set and a truthy seed. */
  lemma StepOrderOnArray(xs: seq<Json>, p: Json -> bool, f: (Json, Json) -> Json, seed: Json, m: Json -> Json)
    requires Truthy(seed)
    ensures var reduced := FoldLeft(f, seed, FilterSeq(xs, p));
      StyledOne(Arr(xs), Style(Some(p), Some(f), Some(seed), Some(m))) ==
        Ok(if reduced.Arr? then Arr(MapSeq(reduced.elems, m)) else m(reduced))
  {
  }
}
