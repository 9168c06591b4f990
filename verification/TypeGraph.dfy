/** When the walk over a type graph ends and when it builds a schema, in terms of the chains of named
    references it meets. A cycle alone does not decide it: an unsupported field that comes first stops
    the walk with an error. */
module TypeGraph {
  import opened Wrappers
  import opened Ordering
  import opened JsonSchema

  /** The named types the walk meets in `t` itself. */
  ghost function NamesIn(t: GoType): set<TypeName> {
    match t
    case Slice(e) => NamesIn(e)
    case Alias(r) => if r.Interface? then {} else NamesIn(r)
    case Pointer(p) => NamesIn(p)
    case Named(pkg, name) => if IsTimeTime(t) then {} else {TypeName(pkg, name)}
    case Struct(fields) => set f, n | f in fields && Visited(f) && n in NamesIn(f.fieldType) :: n
    case _ => {}
  }

  /** A chain of named references met while walking `t`. */
  ghost predicate Chain(env: Env, t: GoType, chain: seq<TypeName>) {
    && chain != [] && chain[0] in NamesIn(t)
    && forall i | 0 <= i < |chain| - 1 :: chain[i] in env && chain[i + 1] in NamesIn(env[chain[i]])
  }

  ghost function Last(chain: seq<TypeName>): TypeName
    requires chain != []
  {
    chain[|chain| - 1]
  }

  /** Every name met is declared, and no chain comes back to a name. */
  ghost predicate Acyclic(env: Env, t: GoType) {
    forall chain | Chain(env, t, chain) :: Last(chain) in env && NoDup(chain)
  }

  /** No unsupported construct at a position of `t` that the walk visits. */
  ghost predicate Supported(t: GoType) {
    match t
    case Slice(e) => Supported(e)
    case Alias(r) => Supported(r)
    case Pointer(p) => Supported(p)
    case Struct(fields) => forall f | f in fields && Visited(f) :: Supported(f.fieldType)
    case Unsupported => false
    case _ => true
  }

  ghost predicate AllSupported(env: Env, t: GoType) {
    Supported(t) && forall chain | Chain(env, t, chain) && Last(chain) in env :: Supported(env[Last(chain)])
  }

  ghost predicate Builds(env: Env, t: GoType) {
    exists depth :: Built(SchemaFor(env, t, depth))
  }

  /** The walk gets past the first `n` fields. */
  ghost predicate FieldsBuild(env: Env, t: GoType, n: nat)
    requires t.Struct? && n <= |t.fields|
  {
    exists depth :: Built(StructSchema(env, t, n, depth))
  }

  /** The named types the walk really comes to in `t`: those before or in its first field without a schema. */
  ghost function MetIn(env: Env, t: GoType): set<TypeName> {
    match t
    case Slice(e) => MetIn(env, e)
    case Alias(r) => if r.Interface? then {} else MetIn(env, r)
    case Pointer(p) => MetIn(env, p)
    case Named(pkg, name) => if IsTimeTime(t) then {} else {TypeName(pkg, name)}
    case Struct(fields) =>
      set i, n | 0 <= i < |fields| && Visited(fields[i]) && FieldsBuild(env, t, i)
                 && n in MetIn(env, fields[i].fieldType) :: n
    case _ => {}
  }

  ghost predicate MetChain(env: Env, t: GoType, chain: seq<TypeName>) {
    && chain != [] && chain[0] in MetIn(env, t)
    && forall i | 0 <= i < |chain| - 1 :: chain[i] in env && chain[i + 1] in MetIn(env, env[chain[i]])
  }

  /** Every name the walk comes to is declared, and it comes back to none on the way down. */
  ghost predicate MetAcyclic(env: Env, t: GoType) {
    forall chain | MetChain(env, t, chain) :: Last(chain) in env && NoDup(chain)
  }

  // ---------------------------------------------------------------- more room changes nothing

  /** Once the walk has ended, a larger bound gives the same result. */
  lemma {:induction false} EndedStays(env: Env, t: GoType, depth: nat, more: nat)
    requires SchemaFor(env, t, depth).Ended? && depth <= more
    ensures SchemaFor(env, t, more) == SchemaFor(env, t, depth)
    decreases depth, t
  {
    match t
    case Slice(e) => EndedStays(env, e, depth, more);
    case Named(pkg, name) =>
      if !IsTimeTime(t) {
        EndedStays(env, env[TypeName(pkg, name)], depth - 1, more - 1);
      }
    case Alias(r) =>
      if !r.Interface? {
        EndedStays(env, r, depth, more);
      }
    case Pointer(p) => EndedStays(env, p, depth, more);
    case Struct(fields) => FieldsStay(env, t, |fields|, depth, more);
    case _ =>
  }

  lemma {:induction false} FieldsStay(env: Env, t: GoType, n: nat, depth: nat, more: nat)
    requires t.Struct? && n <= |t.fields| && StructSchema(env, t, n, depth).Ended? && depth <= more
    ensures StructSchema(env, t, n, more) == StructSchema(env, t, n, depth)
    decreases depth, t, 0, n
  {
    if n > 0 {
      FieldsStay(env, t, n - 1, depth, more);
      if Built(StructSchema(env, t, n - 1, depth)) && Visited(t.fields[n - 1]) {
        EndedStays(env, t.fields[n - 1].fieldType, depth, more);
      }
    }
  }

  /** The bound only measures the recursion: the walk has one result. */
  lemma ResultIsUnique(env: Env, t: GoType, s: Option<Schema>, s': Option<Schema>)
    requires Gives(env, t, s) && Gives(env, t, s')
    ensures s == s'
  {
    var depth: nat :| SchemaFor(env, t, depth) == Ended(s);
    var depth': nat :| SchemaFor(env, t, depth') == Ended(s');
    if depth <= depth' {
      EndedStays(env, t, depth, depth');
    } else {
      EndedStays(env, t, depth', depth);
    }
  }

  // ---------------------------------------------------------------- a walk that ends meets no cycle

  lemma {:induction false} EndedOnward(env: Env, t: GoType, depth: nat, n: TypeName)
    requires SchemaFor(env, t, depth).Ended? && n in MetIn(env, t)
    ensures depth > 0 && n in env && SchemaFor(env, env[n], depth - 1).Ended?
    decreases t
  {
    match t
    case Slice(e) => EndedOnward(env, e, depth, n);
    case Named(_, _) =>
    case Alias(r) => EndedOnward(env, r, depth, n);
    case Pointer(p) => EndedOnward(env, p, depth, n);
    case Struct(fields) =>
      var i :| 0 <= i < |fields| && Visited(fields[i]) && FieldsBuild(env, t, i)
          && n in MetIn(env, fields[i].fieldType);
      FieldEnded(env, t, depth, i);
      EndedOnward(env, fields[i].fieldType, depth, n);
    case _ => assert false;
  }

  lemma FieldEnded(env: Env, t: GoType, depth: nat, i: nat)
    requires t.Struct? && i < |t.fields| && Visited(t.fields[i]) && FieldsBuild(env, t, i)
    requires SchemaFor(env, t, depth).Ended?
    ensures SchemaFor(env, t.fields[i].fieldType, depth).Ended?
  {
    var d: nat :| Built(StructSchema(env, t, i, d));
    StructStops(env, t, i, depth);
    if d <= depth {
      FieldsStay(env, t, i, d, depth);
    } else {
      FieldsStay(env, t, i, depth, d);
    }
    StructContinues(env, t, i, depth);
    StructStops(env, t, i + 1, depth);
  }

  /** Each name along a chain is walked with one level less to go. */
  lemma {:induction false} EndedAlong(env: Env, t: GoType, depth: nat, chain: seq<TypeName>, i: nat)
    requires SchemaFor(env, t, depth).Ended? && MetChain(env, t, chain) && i < |chain|
    ensures i < depth && chain[i] in env && SchemaFor(env, env[chain[i]], depth - i - 1).Ended?
  {
    if i == 0 {
      EndedOnward(env, t, depth, chain[0]);
    } else {
      EndedAlong(env, t, depth, chain, i - 1);
      EndedOnward(env, env[chain[i - 1]], depth - i, chain[i]);
    }
  }

  /** A walk that ends never comes back to its name: each round would have to end with less depth. */
  lemma {:induction false} NoReturn(env: Env, n: TypeName, depth: nat, chain: seq<TypeName>)
    requires n in env && SchemaFor(env, env[n], depth).Ended? && MetChain(env, env[n], chain)
    ensures Last(chain) != n
    decreases depth
  {
    EndedAlong(env, env[n], depth, chain, |chain| - 1);
    if Last(chain) == n {
      NoReturn(env, n, depth - |chain|, chain);
    }
  }

  lemma EndedIsAcyclic(env: Env, t: GoType, depth: nat)
    requires SchemaFor(env, t, depth).Ended?
    ensures MetAcyclic(env, t)
  {
    forall chain | MetChain(env, t, chain)
      ensures Last(chain) in env && NoDup(chain)
    {
      EndedAlong(env, t, depth, chain, |chain| - 1);
      forall i, j | 0 <= i < j < |chain|
        ensures chain[i] != chain[j]
      {
        EndedAlong(env, t, depth, chain, i);
        var round := chain[i + 1..j + 1];
        assert forall k | 0 <= k < |round| :: round[k] == chain[i + 1 + k];
        NoReturn(env, chain[i], depth - i - 1, round);
      }
    }
  }

  // ---------------------------------------------------------------- a built schema meets every name

  lemma {:induction false} BuiltOnward(env: Env, t: GoType, depth: nat, n: TypeName)
    requires Built(SchemaFor(env, t, depth)) && n in NamesIn(t)
    ensures n in MetIn(env, t) && depth > 0 && n in env && Built(SchemaFor(env, env[n], depth - 1))
    decreases t
  {
    match t
    case Slice(e) => BuiltOnward(env, e, depth, n);
    case Named(_, _) =>
    case Alias(r) => BuiltOnward(env, r, depth, n);
    case Pointer(p) => BuiltOnward(env, p, depth, n);
    case Struct(fields) =>
      var i :| 0 <= i < |fields| && Visited(fields[i]) && n in NamesIn(fields[i].fieldType);
      FieldBuilt(env, t, depth, i);
      BuiltOnward(env, fields[i].fieldType, depth, n);
      assert FieldsBuild(env, t, i);
    case _ => assert false;
  }

  lemma FieldBuilt(env: Env, t: GoType, depth: nat, i: nat)
    requires t.Struct? && i < |t.fields| && Visited(t.fields[i]) && Built(SchemaFor(env, t, depth))
    ensures Built(SchemaFor(env, t.fields[i].fieldType, depth)) && Built(StructSchema(env, t, i, depth))
  {
    StructStops(env, t, i, depth);
    StructStops(env, t, i + 1, depth);
    StructContinues(env, t, i, depth);
  }

  lemma {:induction false} BuiltIsSupported(env: Env, t: GoType, depth: nat)
    requires Built(SchemaFor(env, t, depth))
    ensures Supported(t)
    decreases t
  {
    match t
    case Slice(e) => BuiltIsSupported(env, e, depth);
    case Alias(r) =>
      if !r.Interface? {
        BuiltIsSupported(env, r, depth);
      }
    case Pointer(p) => BuiltIsSupported(env, p, depth);
    case Struct(fields) =>
      forall f | f in fields && Visited(f)
        ensures Supported(f.fieldType)
      {
        var i :| 0 <= i < |fields| && fields[i] == f;
        FieldBuilt(env, t, depth, i);
        BuiltIsSupported(env, f.fieldType, depth);
      }
    case _ =>
  }

  lemma {:induction false} BuiltAlong(env: Env, t: GoType, depth: nat, chain: seq<TypeName>, i: nat)
    requires Built(SchemaFor(env, t, depth)) && Chain(env, t, chain) && i < |chain|
    ensures i < depth && chain[i] in env && Built(SchemaFor(env, env[chain[i]], depth - i - 1))
  {
    if i == 0 {
      BuiltOnward(env, t, depth, chain[0]);
    } else {
      BuiltAlong(env, t, depth, chain, i - 1);
      BuiltOnward(env, env[chain[i - 1]], depth - i, chain[i]);
    }
  }

  lemma BuiltIsAcyclic(env: Env, t: GoType, depth: nat)
    requires Built(SchemaFor(env, t, depth))
    ensures Acyclic(env, t) && AllSupported(env, t)
  {
    BuiltIsSupported(env, t, depth);
    EndedIsAcyclic(env, t, depth);
    forall chain | Chain(env, t, chain)
      ensures MetChain(env, t, chain) && Last(chain) in env && Supported(env[Last(chain)])
    {
      BuiltOnward(env, t, depth, chain[0]);
      forall i | 0 <= i < |chain| - 1
        ensures chain[i + 1] in MetIn(env, env[chain[i]])
      {
        BuiltAlong(env, t, depth, chain, i);
        BuiltOnward(env, env[chain[i]], depth - i - 1, chain[i + 1]);
      }
      BuiltAlong(env, t, depth, chain, |chain| - 1);
      BuiltIsSupported(env, env[Last(chain)], depth - |chain|);
    }
  }

  // ---------------------------------------------------------------- a walk that meets no cycle ends

  /** A walk that does not end within `depth` meets an undeclared name or a longer chain. */
  lemma {:induction false} UnfinishedChain(env: Env, t: GoType, depth: nat) returns (chain: seq<TypeName>)
    requires SchemaFor(env, t, depth).Unfinished?
    ensures MetChain(env, t, chain) && (Last(chain) !in env || |chain| > depth)
    decreases depth, t
  {
    match t
    case Slice(e) => chain := UnfinishedChain(env, e, depth);
    case Named(pkg, name) =>
      var n := TypeName(pkg, name);
      if depth == 0 || n !in env {
        chain := [n];
      } else {
        chain := UnfinishedChain(env, env[n], depth - 1);
        chain := [n] + chain;
      }
    case Alias(r) => chain := UnfinishedChain(env, r, depth);
    case Pointer(p) => chain := UnfinishedChain(env, p, depth);
    case Struct(fields) => chain := UnfinishedField(env, t, |fields|, depth);
    case _ => assert false;
  }

  lemma {:induction false} UnfinishedField(env: Env, t: GoType, k: nat, depth: nat) returns (chain: seq<TypeName>)
    requires t.Struct? && k <= |t.fields| && StructSchema(env, t, k, depth).Unfinished?
    ensures MetChain(env, t, chain) && (Last(chain) !in env || |chain| > depth)
    decreases depth, t, 0, k
  {
    if StructSchema(env, t, k - 1, depth).Unfinished? {
      chain := UnfinishedField(env, t, k - 1, depth);
    } else {
      chain := UnfinishedChain(env, t.fields[k - 1].fieldType, depth);
      assert FieldsBuild(env, t, k - 1);
    }
  }

  lemma {:induction false} SubsetSize(a: set<TypeName>, b: set<TypeName>)
    requires a <= b
    ensures |a| <= |b|
  {
    if a != {} {
      var x :| x in a;
      SubsetSize(a - {x}, b - {x});
    }
  }

  lemma {:induction false} DistinctSize(names: seq<TypeName>)
    requires NoDup(names)
    ensures |(set n | n in names)| == |names|
  {
    if names != [] {
      var k := |names| - 1;
      DistinctSize(names[..k]);
      assert names == names[..k] + [names[k]];
      assert (set n | n in names) == (set n | n in names[..k]) + {names[k]};
    }
  }

  lemma MetAcyclicEnds(env: Env, t: GoType)
    requires MetAcyclic(env, t)
    ensures SchemaFor(env, t, |env.Keys|).Ended?
  {
    if SchemaFor(env, t, |env.Keys|).Unfinished? {
      var chain := UnfinishedChain(env, t, |env.Keys|);
      forall i | 0 <= i < |chain|
        ensures chain[i] in env
      {
        assert i == |chain| - 1 ==> chain[i] == Last(chain);
      }
      DistinctSize(chain);
      SubsetSize((set n | n in chain), env.Keys);
    }
  }

  lemma {:induction false} MetAreNamed(env: Env, t: GoType)
    ensures MetIn(env, t) <= NamesIn(t)
  {
    match t
    case Slice(e) => MetAreNamed(env, e);
    case Alias(r) => MetAreNamed(env, r);
    case Pointer(p) => MetAreNamed(env, p);
    case Struct(fields) =>
      forall f | f in fields { MetAreNamed(env, f.fieldType); }
    case _ =>
  }

  lemma AcyclicMeetsNoCycle(env: Env, t: GoType)
    requires Acyclic(env, t)
    ensures MetAcyclic(env, t)
  {
    forall chain | MetChain(env, t, chain)
      ensures Chain(env, t, chain)
    {
      MetAreNamed(env, t);
      forall i | 0 <= i < |chain| - 1
        ensures chain[i + 1] in NamesIn(env[chain[i]])
      {
        MetAreNamed(env, env[chain[i]]);
      }
    }
  }

  // ---------------------------------------------------------------- without unsupported constructs it is not refused

  lemma ChainFrom(env: Env, t: GoType, n: TypeName, rest: seq<TypeName>) returns (chain: seq<TypeName>)
    requires n in NamesIn(t) && n in env && Chain(env, env[n], rest)
    ensures Chain(env, t, chain) && Last(chain) == Last(rest) && |chain| == |rest| + 1
  {
    chain := [n] + rest;
    forall i | 0 <= i < |chain| - 1
      ensures chain[i] in env && chain[i + 1] in NamesIn(env[chain[i]])
    {
      assert chain[i + 1] == rest[i];
      if i > 0 {
        assert chain[i] == rest[i - 1];
      }
    }
  }

  lemma SupportedOnward(env: Env, t: GoType, n: TypeName)
    requires AllSupported(env, t) && n in NamesIn(t) && n in env
    ensures AllSupported(env, env[n])
  {
    assert Chain(env, t, [n]) && Last([n]) == n;
    forall rest | Chain(env, env[n], rest) && Last(rest) in env
      ensures Supported(env[Last(rest)])
    {
      var chain := ChainFrom(env, t, n, rest);
    }
  }

  lemma SupportedPart(env: Env, t: GoType, part: GoType)
    requires AllSupported(env, t) && Supported(part) && NamesIn(part) <= NamesIn(t)
    ensures AllSupported(env, part)
  {
    forall chain | Chain(env, part, chain)
      ensures Chain(env, t, chain)
    {
    }
  }

  lemma {:induction false} SupportedNotRefused(env: Env, t: GoType, depth: nat)
    requires AllSupported(env, t)
    ensures SchemaFor(env, t, depth) != Ended(None)
    decreases depth, t
  {
    match t
    case Slice(e) =>
      SupportedPart(env, t, e);
      SupportedNotRefused(env, e, depth);
    case Named(pkg, name) =>
      if !IsTimeTime(t) && depth > 0 && TypeName(pkg, name) in env {
        SupportedOnward(env, t, TypeName(pkg, name));
        SupportedNotRefused(env, env[TypeName(pkg, name)], depth - 1);
      }
    case Alias(r) =>
      if !r.Interface? {
        SupportedPart(env, t, r);
        SupportedNotRefused(env, r, depth);
      }
    case Pointer(p) =>
      SupportedPart(env, t, p);
      SupportedNotRefused(env, p, depth);
    case Struct(fields) => SupportedFields(env, t, |fields|, depth);
    case _ =>
  }

  lemma {:induction false} SupportedFields(env: Env, t: GoType, k: nat, depth: nat)
    requires AllSupported(env, t) && t.Struct? && k <= |t.fields|
    ensures StructSchema(env, t, k, depth) != Ended(None)
    decreases depth, t, 0, k
  {
    if k > 0 {
      SupportedFields(env, t, k - 1, depth);
      var f := t.fields[k - 1];
      if Visited(f) {
        assert f in t.fields;
        SupportedPart(env, t, f.fieldType);
        SupportedNotRefused(env, f.fieldType, depth);
      }
    }
  }

  // ---------------------------------------------------------------- the two conditions

  /** The walk ends, with a schema or an error, exactly when the names it really comes to are declared
      and none is met again on the way down; it then nests no more named types than are declared. */
  lemma EndsIff(env: Env, t: GoType)
    ensures Ends(env, t) <==> MetAcyclic(env, t)
    ensures Ends(env, t) <==> SchemaFor(env, t, |env.Keys|).Ended?
  {
    if Ends(env, t) {
      var depth :| SchemaFor(env, t, depth).Ended?;
      EndedIsAcyclic(env, t, depth);
    }
    if MetAcyclic(env, t) {
      MetAcyclicEnds(env, t);
    }
  }

  /** It ends with a schema exactly for type graphs that have no undeclared name, no cycle and no
      unsupported construct in any part it visits. */
  lemma BuildsIff(env: Env, t: GoType)
    ensures Builds(env, t) <==> Acyclic(env, t) && AllSupported(env, t)
  {
    if Builds(env, t) {
      var depth :| Built(SchemaFor(env, t, depth));
      BuiltIsAcyclic(env, t, depth);
    }
    if Acyclic(env, t) && AllSupported(env, t) {
      AcyclicMeetsNoCycle(env, t);
      MetAcyclicEnds(env, t);
      SupportedNotRefused(env, t, |env.Keys|);
    }
  }

  /** Where nothing unsupported can stop it early, it ends exactly on acyclic graphs. */
  lemma SupportedEndsIff(env: Env, t: GoType)
    requires AllSupported(env, t)
    ensures Ends(env, t) <==> Acyclic(env, t)
  {
    if Ends(env, t) {
      var depth :| SchemaFor(env, t, depth).Ended?;
      SupportedNotRefused(env, t, depth);
      BuiltIsAcyclic(env, t, depth);
    }
    if Acyclic(env, t) {
      BuildsIff(env, t);
    }
  }

  // ---------------------------------------------------------------- cyclic types

  const NEXT := Field("Next", true, "", Pointer(Named("p", "T")))
  const CHANNEL := Field("C", true, "", Unsupported)

  /** The declaration of a single type `T`, a struct of these fields. */
  function OneStruct(fields: seq<Field>): Env {
    map[TypeName("p", "T") := Struct(fields)]
  }

  /** `type T struct { Next *T }` is never walked to the end. */
  lemma LinkedNeverEnds()
    ensures !Ends(OneStruct([NEXT]), Named("p", "T"))
  {
    var env := OneStruct([NEXT]);
    forall depth: nat
      ensures SchemaFor(env, Named("p", "T"), depth).Unfinished?
    {
      LinkedUnfinished(env, [NEXT], 0, depth);
    }
  }

  /** A struct whose fields before a reference to itself all have schemas is never walked to the end. */
  lemma {:induction false} LinkedUnfinished(env: Env, fields: seq<Field>, i: nat, depth: nat)
    requires env == OneStruct(fields) && i < |fields| && fields[i] == NEXT
    requires forall d: nat :: Built(StructSchema(env, Struct(fields), i, d))
    ensures SchemaFor(env, Named("p", "T"), depth).Unfinished?
  {
    if depth > 0 {
      LinkedUnfinished(env, fields, i, depth - 1);
      StructContinues(env, Struct(fields), i, depth - 1);
      StructStops(env, Struct(fields), i + 1, depth - 1);
    }
  }

  /** With a channel before it, the same reference is never reached: the cycle is there and the walk ends
      with an error. After it, the channel is never reached and the walk does not end. */
  lemma FieldOrderDecides()
    ensures var env := OneStruct([CHANNEL, NEXT]);
            !Acyclic(env, Named("p", "T")) && SchemaFor(env, Named("p", "T"), 1) == Ended(None)
    ensures !Ends(OneStruct([NEXT, CHANNEL]), Named("p", "T"))
  {
    var n := TypeName("p", "T");
    var env := OneStruct([CHANNEL, NEXT]);
    assert [CHANNEL, NEXT][0] == CHANNEL && [CHANNEL, NEXT][1] == NEXT;
    assert NEXT in [CHANNEL, NEXT] && n in NamesIn(NEXT.fieldType);
    assert Chain(env, Named("p", "T"), [n, n]) && [n, n][0] == [n, n][1];
    StructContinues(env, Struct([CHANNEL, NEXT]), 0, 0);
    StructStops(env, Struct([CHANNEL, NEXT]), 1, 0);
    forall depth: nat
      ensures SchemaFor(OneStruct([NEXT, CHANNEL]), Named("p", "T"), depth).Unfinished?
    {
      LinkedUnfinished(OneStruct([NEXT, CHANNEL]), [NEXT, CHANNEL], 0, depth);
    }
  }
}
