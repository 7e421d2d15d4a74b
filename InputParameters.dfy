// The declared parameters of an object and the validation of the parameters
// a user supplies for it: required parameters must be present, unknown and
// renamed ones are rejected, deprecated ones warn or stop the program, types
// must match unless a mismatch is allowed, and values must satisfy any range
// constraint before they replace the declared ones.
module InputParams {
  import opened Wrappers
  import opened Varyings

  /** The kinds of parameter block. */
  datatype BlockType = Boolean | FloatBlock | StringBlock | IntegerBlock | Array | Block

  /** A parameter block: a named scalar value, or an array or block of children. */
  datatype ParamBlock = ParamBlock(name: string, kind: BlockType, value: Option<Datum>,
                                   children: seq<ParamBlock>)

  /** Whether a declared parameter must be supplied. */
  datatype InputParameterTag = Optional | Required

  /** A range constraint: which values it allows. */
  datatype Constraint = Constraint(allows: Datum -> bool)

  /** The name every parameter set may carry and that validation skips. */
  const SystemIgnored: string := "chi_obj_type"

  /** IsParameterIgnored: only the system name is ignored. */
  function IsParameterIgnored(name: string): (r: bool)
    ensures r <==> name == SystemIgnored
  {
    name in [SystemIgnored]
  }

  /**
   * ParameterBlock::Value: a scalar block without a value is a runtime
   * error, and an array or block has no value at all (a logic error).
   */
  function Value(p: ParamBlock): (r: Result<Datum>)
    ensures r.Success? <==> p.kind !in {Array, Block} && p.value.Some?
    ensures p.kind in {Array, Block} ==> r == Failure(LogicError)
    ensures p.kind !in {Array, Block} && p.value.None? ==> r == Failure(RuntimeError)
    ensures r.Success? ==> Some(r.value) == p.value
  {
    if p.kind == Array || p.kind == Block then Failure(LogicError)
    else if p.value.None? then Failure(RuntimeError)
    else Success(p.value.value)
  }

  /** ParameterBlock::Has on a list of children. */
  predicate HasChild(children: seq<ParamBlock>, name: string)
  {
    exists k :: 0 <= k < |children| && children[k].name == name
  }

  /** No two children share a name (ParameterBlock::AddParameter rejects duplicates). */
  predicate UniqueNames(children: seq<ParamBlock>)
  {
    forall j, k :: 0 <= j < k < |children| ==> children[j].name != children[k].name
  }

  /** The outcome of the assignment stage. */
  datatype Outcome = Outcome(stored: map<string, ParamBlock>, rejected: bool,
                             thrown: Option<Exception>)

  /** The tables that decide whether a supplied parameter is accepted. */
  datatype Checks = Checks(mismatchAllowed: set<string>, constraints: map<string, Constraint>)

  /**
   * One supplied parameter at the assignment stage: ignored names are
   * skipped; a type differing from the declared one is rejected unless
   * allowed; a constrained parameter's value is read (which may throw) and
   * rejected when the constraint does not allow it; otherwise the supplied
   * parameter replaces the declared one.
   */
  function AssignOne(o: Outcome, p: ParamBlock, c: Checks): (r: Outcome)
    requires IsParameterIgnored(p.name) || p.name in o.stored
    ensures r.stored.Keys == o.stored.Keys
  {
    if IsParameterIgnored(p.name) then o
    else if p.kind != o.stored[p.name].kind && p.name !in c.mismatchAllowed then
      o.(rejected := true)
    else if p.name in c.constraints then
      match Value(p)
      case Failure(e) => o.(thrown := Some(e))
      case Success(v) =>
        if !c.constraints[p.name].allows(v) then o.(rejected := true)
        else o.(stored := o.stored[p.name := p])
    else o.(stored := o.stored[p.name := p])
  }

  /** Every non-ignored supplied name is declared. */
  predicate AllDeclared(ps: seq<ParamBlock>, stored: map<string, ParamBlock>)
  {
    forall k :: 0 <= k < |ps| ==> IsParameterIgnored(ps[k].name) || ps[k].name in stored
  }

  /** The assignment stage over the supplied parameters in order; it stops at a throw. */
  function AssignStage(stored: map<string, ParamBlock>, ps: seq<ParamBlock>, c: Checks): (r: Outcome)
    requires AllDeclared(ps, stored)
    ensures r.stored.Keys == stored.Keys
  {
    if ps == [] then Outcome(stored, false, None)
    else
      var prev := AssignStage(stored, ps[..|ps| - 1], c);
      if prev.thrown.Some? then prev
      else AssignOne(prev, ps[|ps| - 1], c)
  }

  /** A supplied parameter passes the type and constraint checks. */
  predicate Accepted(p: ParamBlock, stored: map<string, ParamBlock>, c: Checks)
    requires p.name in stored
  {
    (p.kind == stored[p.name].kind || p.name in c.mismatchAllowed) &&
    (p.name in c.constraints ==>
       Value(p).Success? && c.constraints[p.name].allows(Value(p).value))
  }

  /** Reading the value of a constrained parameter throws. */
  predicate Throws(p: ParamBlock, stored: map<string, ParamBlock>, c: Checks)
    requires p.name in stored
  {
    (p.kind == stored[p.name].kind || p.name in c.mismatchAllowed) &&
    p.name in c.constraints && Value(p).Failure?
  }

  lemma AllDeclaredPrefix(ps: seq<ParamBlock>, stored: map<string, ParamBlock>, n: nat)
    requires AllDeclared(ps, stored) && n <= |ps|
    ensures AllDeclared(ps[..n], stored)
  {
  }

  /** Declared parameters that no supplied parameter names keep their value. */
  lemma {:induction false} StageUntouched(stored: map<string, ParamBlock>, ps: seq<ParamBlock>,
                                          c: Checks, name: string)
    requires AllDeclared(ps, stored) && name in stored && !HasChild(ps, name)
    ensures AssignStage(stored, ps, c).stored[name] == stored[name]
  {
    if ps != [] {
      var prefix := ps[..|ps| - 1];
      AllDeclaredPrefix(ps, stored, |ps| - 1);
      StageUntouched(stored, prefix, c, name);
    }
  }

  /** The entry the k-th supplied parameter is checked against is the declared one. */
  lemma CheckedAgainstDeclared(stored: map<string, ParamBlock>, ps: seq<ParamBlock>, c: Checks)
    requires AllDeclared(ps, stored) && UniqueNames(ps) && ps != []
    requires !IsParameterIgnored(ps[|ps| - 1].name)
    ensures AllDeclared(ps[..|ps| - 1], stored)
    ensures AssignStage(stored, ps[..|ps| - 1], c).stored[ps[|ps| - 1].name] ==
            stored[ps[|ps| - 1].name]
  {
    var prefix := ps[..|ps| - 1];
    var name := ps[|ps| - 1].name;
    AllDeclaredPrefix(ps, stored, |ps| - 1);
    StageUntouched(stored, prefix, c, name);
  }

  /** The stage throws exactly when reading some checked value throws. */
  lemma {:induction false} StageThrows(stored: map<string, ParamBlock>, ps: seq<ParamBlock>,
                                       c: Checks)
    requires AllDeclared(ps, stored) && UniqueNames(ps)
    ensures AssignStage(stored, ps, c).thrown.None? <==>
            forall k :: 0 <= k < |ps| && !IsParameterIgnored(ps[k].name) ==>
                          !Throws(ps[k], stored, c)
  {
    if ps != [] {
      var prefix := ps[..|ps| - 1];
      assert forall k :: 0 <= k < |prefix| ==> prefix[k] == ps[k];
      AllDeclaredPrefix(ps, stored, |ps| - 1);
      StageThrows(stored, prefix, c);
      if !IsParameterIgnored(ps[|ps| - 1].name) {
        CheckedAgainstDeclared(stored, ps, c);
      }
    }
  }

  /**
   * Without a throw, the stage rejects exactly when some non-ignored
   * supplied parameter fails its type or constraint check.
   */
  lemma {:induction false} StageRejects(stored: map<string, ParamBlock>, ps: seq<ParamBlock>,
                                        c: Checks)
    requires AllDeclared(ps, stored) && UniqueNames(ps)
    requires AssignStage(stored, ps, c).thrown.None?
    ensures AssignStage(stored, ps, c).rejected <==>
            exists k :: 0 <= k < |ps| && !IsParameterIgnored(ps[k].name) &&
                        !Accepted(ps[k], stored, c)
  {
    if ps != [] {
      var prefix := ps[..|ps| - 1];
      assert forall k :: 0 <= k < |prefix| ==> prefix[k] == ps[k];
      AllDeclaredPrefix(ps, stored, |ps| - 1);
      StageRejects(stored, prefix, c);
      if !IsParameterIgnored(ps[|ps| - 1].name) {
        CheckedAgainstDeclared(stored, ps, c);
      }
    }
  }

  /**
   * Without a throw, each supplied parameter that passes its checks
   * replaces the declared one of its name, and one that fails leaves it.
   */
  lemma {:induction false} StageStores(stored: map<string, ParamBlock>, ps: seq<ParamBlock>,
                                       c: Checks)
    requires AllDeclared(ps, stored) && UniqueNames(ps)
    requires AssignStage(stored, ps, c).thrown.None?
    ensures forall k :: 0 <= k < |ps| && !IsParameterIgnored(ps[k].name) ==>
              AssignStage(stored, ps, c).stored[ps[k].name] ==
              (if Accepted(ps[k], stored, c) then ps[k] else stored[ps[k].name])
  {
    if ps != [] {
      var prefix := ps[..|ps| - 1];
      var p := ps[|ps| - 1];
      assert forall k :: 0 <= k < |prefix| ==> prefix[k] == ps[k];
      AllDeclaredPrefix(ps, stored, |ps| - 1);
      StageStores(stored, prefix, c);
      if !IsParameterIgnored(p.name) {
        CheckedAgainstDeclared(stored, ps, c);
      }
    }
  }

  /** The parameter tables of an object. */
  class InputParameters {
    var params: map<string, ParamBlock>
    var classTags: map<string, InputParameterTag>
    var docStrings: map<string, string>
    var deprecationWarnings: map<string, string>
    var deprecationErrors: map<string, string>
    var renamedErrors: map<string, string>
    var mismatchAllowed: set<string>
    var links: map<string, string>
    var constraints: map<string, Constraint>
    var assignedBlock: ParamBlock

    /** Every tagged name is a declared parameter, and each has a doc string. */
    predicate Valid()
      reads this
    {
      ValidTables(Snapshot())
    }

    function CheckTables(): Checks
      reads this
    {
      Checks(mismatchAllowed, constraints)
    }

    /** An empty parameter set. */
    constructor()
      ensures Valid()
      ensures params == map[] && classTags == map[] && docStrings == map[]
      ensures deprecationWarnings == map[] && deprecationErrors == map[]
      ensures renamedErrors == map[] && mismatchAllowed == {} && links == map[]
      ensures constraints == map[]
    {
      params := map[];
      classTags := map[];
      docStrings := map[];
      deprecationWarnings := map[];
      deprecationErrors := map[];
      renamedErrors := map[];
      mismatchAllowed := {};
      links := map[];
      constraints := map[];
      assignedBlock := ParamBlock("", Block, None, []);
    }

    /** A required parameter with no deprecation or renaming tag. */
    predicate Enforced(name: string)
      reads this
    {
      name in classTags && classTags[name] == Required &&
      name !in deprecationWarnings && name !in deprecationErrors && name !in renamedErrors
    }

    /** A supplied name that is undeclared or renamed. */
    predicate Unknown(name: string)
      reads this
    {
      !IsParameterIgnored(name) && (name !in params || name in renamedErrors)
    }

    /** A supplied name whose use has been made an error by deprecation. */
    predicate DeprecatedError(name: string)
      reads this
    {
      !IsParameterIgnored(name) && name in params && name in deprecationErrors
    }

    /** Some enforced required parameter is missing from `supplied`. */
    predicate MissingIn(supplied: seq<ParamBlock>)
      reads this
    {
      exists name :: name in classTags && Enforced(name) && !HasChild(supplied, name)
    }

    /** Some supplied name is unknown or renamed. */
    predicate UnknownIn(supplied: seq<ParamBlock>)
      reads this
    {
      exists k :: 0 <= k < |supplied| && Unknown(supplied[k].name)
    }

    /** Some supplied name is marked as a deprecation error. */
    predicate DeprecatedIn(supplied: seq<ParamBlock>)
      reads this
    {
      exists k :: 0 <= k < |supplied| && DeprecatedError(supplied[k].name)
    }

    /** Whether some enforced required parameter is missing from `supplied`. */
    method FindMissingRequired(supplied: seq<ParamBlock>) returns (missing: bool)
      ensures missing <==> MissingIn(supplied)
    {
      missing := false;
      var todo := classTags.Keys;
      while todo != {}
        invariant todo <= classTags.Keys
        invariant missing <==> exists name :: name in classTags.Keys - todo && Enforced(name) &&
                                              !HasChild(supplied, name)
        decreases |todo|
      {
        var name :| name in todo;
        if Enforced(name) && !HasChild(supplied, name) {
          missing := true;
        }
        todo := todo - {name};
      }
    }

    /** Whether some supplied name is unknown or renamed. */
    method FindUnknown(supplied: seq<ParamBlock>) returns (found: bool)
      ensures found <==> UnknownIn(supplied)
    {
      found := false;
      var k := 0;
      while k < |supplied|
        invariant 0 <= k <= |supplied|
        invariant found <==> exists j :: 0 <= j < k && Unknown(supplied[j].name)
      {
        if Unknown(supplied[k].name) {
          found := true;
        }
        k := k + 1;
      }
    }

    /** Whether some supplied name is marked as a deprecation error. */
    method FindDeprecatedError(supplied: seq<ParamBlock>) returns (found: bool)
      ensures found <==> DeprecatedIn(supplied)
    {
      found := false;
      var k := 0;
      while k < |supplied|
        invariant 0 <= k <= |supplied|
        invariant found <==> exists j :: 0 <= j < k && DeprecatedError(supplied[j].name)
      {
        if DeprecatedError(supplied[k].name) {
          return true;
        }
        k := k + 1;
      }
    }

    /** The assignment stage, replacing accepted parameters in place. */
    method AssignValues(supplied: seq<ParamBlock>) returns (o: Outcome)
      requires AllDeclared(supplied, params)
      modifies this`params
      ensures o == AssignStage(old(params), supplied, CheckTables())
      ensures params == o.stored
    {
      var c := CheckTables();
      o := Outcome(params, false, None);
      var k := 0;
      while k < |supplied|
        invariant 0 <= k <= |supplied|
        invariant AllDeclared(supplied[..k], old(params))
        invariant o.thrown.None? && o == AssignStage(old(params), supplied[..k], c)
        invariant params == o.stored
      {
        assert supplied[..k + 1][..k] == supplied[..k];
        AllDeclaredPrefix(supplied, old(params), k + 1);
        var p := supplied[k];
        ghost var next := AssignStage(old(params), supplied[..k + 1], c);
        assert next == AssignOne(o, p, c);
        if !IsParameterIgnored(p.name) {
          if p.kind != params[p.name].kind && p.name !in mismatchAllowed {
            o := o.(rejected := true);
          } else if p.name in constraints {
            var v := Value(p);
            if v.Failure? {
              o := o.(thrown := Some(v.error));
              assert o == next;
              ThrowStops(old(params), supplied, c, k + 1);
              return;
            }
            if !constraints[p.name].allows(v.value) {
              o := o.(rejected := true);
            } else {
              params := params[p.name := p];
              o := o.(stored := params);
            }
          } else {
            params := params[p.name := p];
            o := o.(stored := params);
          }
        }
        k := k + 1;
      }
      assert supplied[..|supplied|] == supplied;
    }

    /**
     * AssignParameters: records the supplied block, then checks in turn
     * for missing required parameters, unknown or renamed ones (both input
     * errors), and deprecation errors (which stop the program); then
     * assigns, raising an input error at the end when any parameter was
     * rejected.
     */
    method AssignParameters(supplied: ParamBlock) returns (r: Result<()>)
      requires Valid()
      modifies this`params, this`assignedBlock
      ensures Valid() && assignedBlock == supplied
      ensures var ps := supplied.children;
        var missing := old(MissingIn(ps));
        var unknown := old(UnknownIn(ps));
        var deprecated := old(DeprecatedIn(ps));
        (missing ==> r == Failure(InvalidArgument) && params == old(params)) &&
        (!missing && unknown ==> r == Failure(InvalidArgument) && params == old(params)) &&
        (!missing && !unknown && deprecated ==> r == Failure(ProgramExit) && params == old(params)) &&
        (!missing && !unknown && !deprecated ==>
           AllDeclared(ps, old(params)) &&
           var o := AssignStage(old(params), ps, CheckTables());
           params == o.stored &&
           r == (if o.thrown.Some? then Failure(o.thrown.value)
                 else if o.rejected then Failure(InvalidArgument)
                 else Success(())))
    {
      assignedBlock := supplied;
      var ps := supplied.children;
      var missing := FindMissingRequired(ps);
      if missing {
        return Failure(InvalidArgument);
      }
      var unknown := FindUnknown(ps);
      if unknown {
        return Failure(InvalidArgument);
      }
      var deprecated := FindDeprecatedError(ps);
      if deprecated {
        return Failure(ProgramExit);
      }
      var o := AssignValues(ps);
      if o.thrown.Some? {
        return Failure(o.thrown.value);
      }
      if o.rejected {
        return Failure(InvalidArgument);
      }
      return Success(());
    }

    /** MarkParamaterDeprecatedWarning: the parameter must be declared. */
    method MarkDeprecatedWarning(name: string, message: string) returns (r: Result<()>)
      modifies this`deprecationWarnings
      ensures r.Failure? <==> name !in params
      ensures r.Failure? ==> r.error == LogicError && deprecationWarnings == old(deprecationWarnings)
      ensures r.Success? ==> deprecationWarnings == old(deprecationWarnings)[name := message]
    {
      if name !in params {
        return Failure(LogicError);
      }
      deprecationWarnings := deprecationWarnings[name := message];
      return Success(());
    }

    /** MarkParamaterDeprecatedError: the parameter must be declared. */
    method MarkDeprecatedError(name: string, message: string) returns (r: Result<()>)
      modifies this`deprecationErrors
      ensures r.Failure? <==> name !in params
      ensures r.Failure? ==> r.error == LogicError && deprecationErrors == old(deprecationErrors)
      ensures r.Success? ==> deprecationErrors == old(deprecationErrors)[name := message]
    {
      if name !in params {
        return Failure(LogicError);
      }
      deprecationErrors := deprecationErrors[name := message];
      return Success(());
    }

    /** MarkParamaterRenamed: the parameter must be declared. */
    method MarkRenamed(name: string, description: string) returns (r: Result<()>)
      modifies this`renamedErrors
      ensures r.Failure? <==> name !in params
      ensures r.Failure? ==> r.error == LogicError && renamedErrors == old(renamedErrors)
      ensures r.Success? ==> renamedErrors == old(renamedErrors)[name := description]
    {
      if name !in params {
        return Failure(LogicError);
      }
      renamedErrors := renamedErrors[name := description];
      return Success(());
    }

    /**
     * ConstrainParameterRange: the parameter must be declared (a logic
     * error otherwise) and must not be a block or an array (an invalid
     * argument).
     */
    method ConstrainParameterRange(name: string, range: Constraint) returns (r: Result<()>)
      modifies this`constraints
      ensures name !in params ==> r == Failure(LogicError)
      ensures name in params && params[name].kind in {Block, Array} ==>
        r == Failure(InvalidArgument)
      ensures r.Success? <==> name in params && params[name].kind !in {Block, Array}
      ensures r.Failure? ==> constraints == old(constraints)
      ensures r.Success? ==> constraints == old(constraints)[name := range]
    {
      if name !in params {
        return Failure(LogicError);
      }
      var kind := params[name].kind;
      if kind == Block || kind == Array {
        return Failure(InvalidArgument);
      }
      constraints := constraints[name := range];
      return Success(());
    }

    /**
     * operator+=: the other set's parameters are added (a duplicate name is
     * an invalid argument), then each of its tag tables is merged in (a
     * duplicate key is a logic error).
     */
    method Merge(other: InputParameters) returns (r: Result<()>)
      requires Valid() && other.Valid()
      modifies this
      ensures old(params.Keys) !! old(other.params.Keys) ==> r != Failure(InvalidArgument)
      ensures !(old(params.Keys) !! old(other.params.Keys)) ==> r == Failure(InvalidArgument)
      ensures r.Success? <==> NoDuplicates(old(Snapshot()), old(other.Snapshot()))
      ensures r.Success? ==> Valid() && Snapshot() == Merged(old(Snapshot()), old(other.Snapshot()))
    {
      var mine := Snapshot();
      var theirs := other.Snapshot();
      if !(params.Keys !! theirs.params.Keys) {
        return Failure(InvalidArgument);
      }
      if !NoDuplicates(mine, theirs) {
        return Failure(LogicError);
      }
      MergedValid(mine, theirs);
      Restore(Merged(mine, theirs));
      return Success(());
    }

    /** Replaces every table with the given one. */
    method Restore(t: Tables)
      modifies this`params, this`classTags, this`docStrings, this`deprecationWarnings,
               this`deprecationErrors, this`renamedErrors, this`mismatchAllowed, this`links,
               this`constraints
      ensures Snapshot() == t
    {
      params := t.params;
      classTags := t.classTags;
      docStrings := t.docStrings;
      deprecationWarnings := t.deprecationWarnings;
      deprecationErrors := t.deprecationErrors;
      renamedErrors := t.renamedErrors;
      mismatchAllowed := t.mismatchAllowed;
      links := t.links;
      constraints := t.constraints;
    }

    /** The tables as one value. */
    function Snapshot(): Tables
      reads this
    {
      Tables(params, classTags, docStrings, deprecationWarnings, deprecationErrors,
             renamedErrors, mismatchAllowed, links, constraints)
    }
  }

  /** A copy of the tables of a parameter set. */
  datatype Tables = Tables(params: map<string, ParamBlock>,
                           classTags: map<string, InputParameterTag>,
                           docStrings: map<string, string>,
                           deprecationWarnings: map<string, string>,
                           deprecationErrors: map<string, string>,
                           renamedErrors: map<string, string>,
                           mismatchAllowed: set<string>,
                           links: map<string, string>,
                           constraints: map<string, Constraint>)

  /** No name appears in both sets' parameters or in both sides of any table. */
  predicate NoDuplicates(a: Tables, b: Tables)
  {
    a.params.Keys !! b.params.Keys &&
    a.classTags.Keys !! b.classTags.Keys &&
    a.docStrings.Keys !! b.docStrings.Keys &&
    a.deprecationWarnings.Keys !! b.deprecationWarnings.Keys &&
    a.deprecationErrors.Keys !! b.deprecationErrors.Keys &&
    a.renamedErrors.Keys !! b.renamedErrors.Keys &&
    a.mismatchAllowed !! b.mismatchAllowed &&
    a.links.Keys !! b.links.Keys &&
    a.constraints.Keys !! b.constraints.Keys
  }

  /** The union of two sets of tables. */
  function Merged(a: Tables, b: Tables): Tables
  {
    Tables(a.params + b.params, a.classTags + b.classTags, a.docStrings + b.docStrings,
           a.deprecationWarnings + b.deprecationWarnings,
           a.deprecationErrors + b.deprecationErrors, a.renamedErrors + b.renamedErrors,
           a.mismatchAllowed + b.mismatchAllowed, a.links + b.links,
           a.constraints + b.constraints)
  }

  /** Tagged names are declared parameters, each with a doc string. */
  predicate ValidTables(t: Tables)
  {
    t.classTags.Keys <= t.params.Keys && t.params.Keys <= t.docStrings.Keys
  }

  /** Merging two valid sets of tables gives valid tables. */
  lemma MergedValid(a: Tables, b: Tables)
    requires ValidTables(a) && ValidTables(b)
    ensures ValidTables(Merged(a, b))
  {
  }

  /** m holds every entry of a and of b, each with its own value. */
  ghost predicate KeepsBoth<V>(m: map<string, V>, a: map<string, V>, b: map<string, V>)
  {
    m.Keys == a.Keys + b.Keys &&
    (forall n :: n in a ==> m[n] == a[n]) && (forall n :: n in b ==> m[n] == b[n])
  }

  lemma UnionKeepsBoth<V>(a: map<string, V>, b: map<string, V>)
    requires a.Keys !! b.Keys
    ensures KeepsBoth(a + b, a, b)
  {
  }

  /** Merging disjoint tables loses nothing and changes nothing: in every
    * table each entry keeps its side's value. */
  lemma MergedKeepsEntries(a: Tables, b: Tables)
    requires NoDuplicates(a, b)
    ensures var m := Merged(a, b);
            KeepsBoth(m.params, a.params, b.params) &&
            KeepsBoth(m.classTags, a.classTags, b.classTags) &&
            KeepsBoth(m.docStrings, a.docStrings, b.docStrings) &&
            KeepsBoth(m.deprecationWarnings, a.deprecationWarnings, b.deprecationWarnings) &&
            KeepsBoth(m.deprecationErrors, a.deprecationErrors, b.deprecationErrors) &&
            KeepsBoth(m.renamedErrors, a.renamedErrors, b.renamedErrors) &&
            m.mismatchAllowed == a.mismatchAllowed + b.mismatchAllowed &&
            KeepsBoth(m.links, a.links, b.links) &&
            KeepsBoth(m.constraints, a.constraints, b.constraints)
  {
    UnionKeepsBoth(a.params, b.params);
    UnionKeepsBoth(a.classTags, b.classTags);
    UnionKeepsBoth(a.docStrings, b.docStrings);
    UnionKeepsBoth(a.deprecationWarnings, b.deprecationWarnings);
    UnionKeepsBoth(a.deprecationErrors, b.deprecationErrors);
    UnionKeepsBoth(a.renamedErrors, b.renamedErrors);
    UnionKeepsBoth(a.links, b.links);
    UnionKeepsBoth(a.constraints, b.constraints);
  }

  /** Once the assignment stage throws, later parameters change nothing. */
  lemma {:induction false} ThrowStops(stored: map<string, ParamBlock>, ps: seq<ParamBlock>, c: Checks,
                                      n: nat)
    requires AllDeclared(ps, stored) && n <= |ps|
    requires AllDeclared(ps[..n], stored)
    requires AssignStage(stored, ps[..n], c).thrown.Some?
    ensures AssignStage(stored, ps, c) == AssignStage(stored, ps[..n], c)
    decreases |ps| - n
  {
    if n < |ps| {
      AllDeclaredPrefix(ps, stored, n + 1);
      assert ps[..n + 1][..n] == ps[..n];
      ThrowStops(stored, ps, c, n + 1);
    } else {
      assert ps[..n] == ps;
    }
  }
}
