/**
  response_expand (ldc/driver/response.cpp): arguments `@name` are replaced, again
  and again, by the tokens of an environment variable or a file, at most 32 times
  per name.  Its result is compared with a recursive flattening that has no limit.
 */
module ResponseExpansion {
  import opened Options
  import opened ResponseFile

  const LIMIT: nat := 32

  /** Environment variables and readable files; an empty variable counts as absent. */
  datatype Sources = Sources(env: map<string, string>, files: map<string, string>) {
    function Lookup(name: string): (r: Option<string>)
      ensures r.Some? ==> name in Names()
    {
      if name in env && env[name] != "" then Some(env[name])
      else if name in files then Some(files[name])
      else None
    }

    function Names(): set<string> { env.Keys + files.Keys }
  }

  /** What a name stands for: its variable unless that is empty, otherwise its file. */
  ghost predicate Provides(src: Sources, name: string, text: string) {
    if name in src.env && src.env[name] != "" then text == src.env[name]
    else name in src.files && text == src.files[name]
  }

  /** A name with neither a non-empty variable nor a file. */
  ghost predicate Absent(src: Sources, name: string) {
    (name in src.env ==> src.env[name] == "") && name !in src.files
  }

  lemma LookupIs(src: Sources, name: string)
    ensures src.Lookup(name).None? <==> Absent(src, name)
    ensures forall text :: Provides(src, name, text) <==> src.Lookup(name) == Some(text)
  {
  }

  predicate IsResponse(a: string) { a != "" && a[0] == '@' }

  // ------------------------------------------------------------------- the work list

  datatype Outcome = Ok(args: seq<string>) | Error(code: nat)

  /** Expansions still allowed before every name has used up its limit. */
  ghost function Budget(names: set<string>, used: multiset<string>): int {
    LIMIT * |names| - |used|
  }

  /** Only names that exist have been expanded, none beyond the limit. */
  ghost predicate Counted(names: set<string>, used: multiset<string>) {
    forall n :: n in used ==> n in names && used[n] <= LIMIT
  }

  lemma {:induction false} CountedBudget(names: set<string>, used: multiset<string>)
    requires Counted(names, used)
    ensures Budget(names, used) >= 0
    decreases names
  {
    if names == {} {
      assert used == multiset{};
    } else {
      var n :| n in names;
      var rest := used[n := 0];
      assert used == rest + multiset{}[n := used[n]];
      assert |multiset{}[n := used[n]]| == used[n];
      CountedBudget(names - {n}, rest);
    }
  }

  lemma CountedStep(src: Sources, used: multiset<string>, name: string)
    requires Counted(src.Names(), used) && src.Lookup(name).Some? && used[name] < LIMIT
    ensures Counted(src.Names(), used + multiset{name})
    ensures 0 <= Budget(src.Names(), used + multiset{name}) < Budget(src.Names(), used)
  {
    CountedBudget(src.Names(), used + multiset{name});
  }

  /** What the loop does from a given queue, count map and list of processed arguments. */
  ghost function Work(src: Sources, queue: seq<string>, used: multiset<string>, done: seq<string>): Outcome
    requires Counted(src.Names(), used)
    decreases Budget(src.Names(), used), |queue|
  {
    CountedBudget(src.Names(), used);
    if queue == [] then Ok(done)
    else
      var arg, rest := queue[0], queue[1..];
      if !IsResponse(arg) then Work(src, rest, used, if arg == "" then done else done + [arg])
      else
        var name := arg[1..];
        if name == "" then Error(1)
        else if used[name] >= LIMIT then Error(2)
        else if src.Lookup(name).None? then Error(3)
        else
          CountedStep(src, used, name);
          Work(src, Tokens(src.Lookup(name).value) + rest, used + multiset{name}, done)
  }

  lemma WorkDone(src: Sources, used: multiset<string>, done: seq<string>)
    requires Counted(src.Names(), used)
    ensures Work(src, [], used, done) == Ok(done)
  {
  }

  lemma WorkPlain(src: Sources, queue: seq<string>, used: multiset<string>, done: seq<string>)
    requires Counted(src.Names(), used) && queue != [] && !IsResponse(queue[0])
    ensures Work(src, queue, used, done) == Work(src, queue[1..], used, done + Emit(queue[0]))
  {
    assert done + [] == done;
  }

  lemma WorkResponse(src: Sources, queue: seq<string>, used: multiset<string>, done: seq<string>)
    requires Counted(src.Names(), used) && queue != [] && IsResponse(queue[0])
    ensures var name := queue[0][1..];
      if name == "" then Work(src, queue, used, done) == Error(1)
      else if used[name] >= LIMIT then Work(src, queue, used, done) == Error(2)
      else if src.Lookup(name).None? then Work(src, queue, used, done) == Error(3)
      else
        && Counted(src.Names(), used + multiset{name})
        && 0 <= Budget(src.Names(), used + multiset{name}) < Budget(src.Names(), used)
        && Work(src, queue, used, done) ==
           Work(src, Tokens(src.Lookup(name).value) + queue[1..], used + multiset{name}, done)
  {
    hide Tokens, Budget, Counted;
    var name := queue[0][1..];
    if name != "" && used[name] < LIMIT && src.Lookup(name).Some? { CountedStep(src, used, name); }
  }

  /** response_expand, with its queue, its counter map and its result vector. */
  method ResponseExpand(src: Sources, args: seq<string>) returns (code: nat, processed: seq<string>)
    ensures (if code == 0 then Ok(processed) else Error(code)) == Work(src, args, multiset{}, [])
  {
    hide Work, Tokens, Budget, Counted;
    NothingCounted(src.Names());
    var queue, counts: map<string, nat> := args, map[];
    ghost var used := multiset{};
    processed := [];
    while queue != []
      invariant Counted(src.Names(), used)
      invariant forall n :: used[n] == if n in counts then counts[n] else 0
      invariant forall n :: n in counts ==> counts[n] >= 1
      invariant Work(src, queue, used, processed) == Work(src, args, multiset{}, [])
      decreases Budget(src.Names(), used), |queue|
    {
      CountedBudget(src.Names(), used);
      if IsResponse(queue[0]) { WorkResponse(src, queue, used, processed); } else { WorkPlain(src, queue, used, processed); }
      assert processed + [] == processed;
      var arg := queue[0];
      queue := queue[1..];
      if arg != "" && arg[0] == '@' {
        arg := arg[1..];
        if arg == "" { return 1, []; }
        if arg !in counts {
          counts := counts[arg := 1];
        } else {
          counts := counts[arg := counts[arg] + 1];
          if counts[arg] > LIMIT { return 2, []; }
        }
        var content := src.Lookup(arg);
        if content.None? { return 3, []; }
        var expanded := Expand(content.value);
        used := used + multiset{arg};
        queue := expanded + queue;
      } else if arg != "" {
        processed := processed + [arg];
      }
    }
    WorkDone(src, used, processed);
    code := 0;
  }

  lemma NothingCounted(names: set<string>)
    ensures Counted(names, multiset{})
  {
  }

  // ------------------------------------------------------- flattening without a limit

  /** Result and the names expanded on the way. */
  datatype Flat = Flat(args: seq<string>, uses: multiset<string>)

  /** Depth-first, left to right; None if a name is missing or nesting exceeds the depth. */
  ghost function Flatten(src: Sources, depth: nat, args: seq<string>): Option<Flat>
    decreases depth, |args|
  {
    if args == [] then Some(Flat([], multiset{}))
    else
      var head, tail := FlattenOne(src, depth, args[0]), Flatten(src, depth, args[1..]);
      Join(head, tail)
  }

  ghost function FlattenOne(src: Sources, depth: nat, arg: string): Option<Flat>
    decreases depth, 0
  {
    if !IsResponse(arg) then Some(Flat(Emit(arg), multiset{}))
    else
      var name := arg[1..];
      if depth == 0 || name == "" then None
      else if name in src.env && src.env[name] != "" then Nested(Flatten(src, depth - 1, Tokens(src.env[name])), name)
      else if name in src.files then Nested(Flatten(src, depth - 1, Tokens(src.files[name])), name)
      else None
  }

  ghost function Nested(inner: Option<Flat>, name: string): Option<Flat> {
    if inner.None? then None else Some(inner.value.(uses := inner.value.uses + multiset{name}))
  }

  function Join(a: Option<Flat>, b: Option<Flat>): Option<Flat> {
    if a.None? || b.None? then None else Some(Flat(a.value.args + b.value.args, a.value.uses + b.value.uses))
  }

  lemma JoinAssoc(a: Option<Flat>, b: Option<Flat>, c: Option<Flat>)
    ensures Join(Join(a, b), c) == Join(a, Join(b, c))
  {
    if a.Some? && b.Some? && c.Some? {
      assert a.value.args + b.value.args + c.value.args == a.value.args + (b.value.args + c.value.args);
      assert a.value.uses + b.value.uses + c.value.uses == a.value.uses + (b.value.uses + c.value.uses);
    }
  }

  lemma {:induction false} FlattenAppend(src: Sources, depth: nat, a: seq<string>, b: seq<string>)
    ensures Flatten(src, depth, a + b) == Join(Flatten(src, depth, a), Flatten(src, depth, b))
    decreases |a|
  {
    if a == [] {
      assert a + b == b;
      var t := Flatten(src, depth, b);
      if t.Some? { assert [] + t.value.args == t.value.args && multiset{} + t.value.uses == t.value.uses; }
    } else {
      assert (a + b)[0] == a[0] && (a + b)[1..] == a[1..] + b;
      FlattenAppend(src, depth, a[1..], b);
      JoinAssoc(FlattenOne(src, depth, a[0]), Flatten(src, depth, a[1..]), Flatten(src, depth, b));
    }
  }

  /** More depth never changes a result. */
  lemma {:induction false} FlattenDeeper(src: Sources, depth: nat, args: seq<string>)
    requires Flatten(src, depth, args).Some?
    ensures Flatten(src, depth + 1, args) == Flatten(src, depth, args)
    decreases depth, |args|
  {
    if args != [] {
      FlattenDeeper(src, depth, args[1..]);
      if IsResponse(args[0]) {
        FlattenDeeper(src, depth - 1, Tokens(src.Lookup(args[0][1..]).value));
      }
    }
  }

  lemma FlattenPlain(src: Sources, depth: nat, queue: seq<string>)
    requires queue != [] && !IsResponse(queue[0])
    ensures Flatten(src, depth, queue).Some? <==> Flatten(src, depth, queue[1..]).Some?
    ensures Flatten(src, depth, queue).Some? ==>
      var f := Flatten(src, depth, queue[1..]).value;
      Flatten(src, depth, queue).value == Flat(Emit(queue[0]) + f.args, f.uses)
  {
  }

  lemma FlattenNone(src: Sources, depth: nat)
    ensures Flatten(src, depth, []) == Some(Flat([], multiset{}))
  {
  }

  lemma FlattenNeeds(src: Sources, depth: nat, queue: seq<string>)
    requires queue != [] && IsResponse(queue[0]) && Flatten(src, depth, queue).Some?
    ensures depth > 0 && queue[0][1..] != "" && src.Lookup(queue[0][1..]).Some?
  {
  }

  /** One response argument in front: its own expansion one level down, then the rest. */
  lemma FlattenResponse(src: Sources, depth: nat, queue: seq<string>)
    requires depth > 0 && queue != [] && IsResponse(queue[0])
    requires queue[0][1..] != "" && src.Lookup(queue[0][1..]).Some?
    ensures var inner := Flatten(src, depth - 1, Tokens(src.Lookup(queue[0][1..]).value));
            var tail := Flatten(src, depth, queue[1..]);
            Flatten(src, depth, queue) ==
              if inner.None? || tail.None? then None
              else Some(Flat(inner.value.args + tail.value.args,
                             inner.value.uses + multiset{queue[0][1..]} + tail.value.uses))
  {
    hide Tokens;
  }

  // ------------------------------------------------------------------- the comparison

  ghost predicate WithinLimit(uses: multiset<string>) { forall n :: n in uses ==> uses[n] <= LIMIT }

  /** A successful run is a flattening that expands no name more than 32 times. */
  lemma {:induction false} WorkIsFlatten(src: Sources, queue: seq<string>, used: multiset<string>, done: seq<string>)
    returns (depth: nat)
    requires Counted(src.Names(), used) && Work(src, queue, used, done).Ok?
    ensures Flatten(src, depth, queue).Some?
    ensures Work(src, queue, used, done) == Ok(done + Flatten(src, depth, queue).value.args)
    ensures WithinLimit(used + Flatten(src, depth, queue).value.uses)
    decreases Budget(src.Names(), used), |queue|
  {
    hide Tokens, Work, Flatten, Counted, Budget;
    CountedBudget(src.Names(), used);
    if queue == [] {
      depth := 0;
      WorkDone(src, used, done);
      FlattenNone(src, 0);
      assert done + [] == done && used + multiset{} == used;
      CountedWithin(src.Names(), used);
    } else {
      var arg, rest := queue[0], queue[1..];
      if !IsResponse(arg) {
        WorkPlain(src, queue, used, done);
        depth := WorkIsFlatten(src, rest, used, done + Emit(arg));
        FlattenPlain(src, depth, queue);
        var f := Flatten(src, depth, rest).value;
        assert done + (Emit(arg) + f.args) == done + Emit(arg) + f.args;
      } else {
        WorkResponse(src, queue, used, done);
        var name := arg[1..];
        var inner := Tokens(src.Lookup(name).value);
        var d := WorkIsFlatten(src, inner + rest, used + multiset{name}, done);
        depth := d + 1;
        FlattenAppend(src, d, inner, rest);
        FlattenDeeper(src, d, rest);
        FlattenResponse(src, depth, queue);
        var f, g := Flatten(src, d, inner).value, Flatten(src, d, rest).value;
        assert used + multiset{name} + (f.uses + g.uses) == used + (f.uses + multiset{name} + g.uses);
      }
    }
  }

  lemma CountedWithin(names: set<string>, used: multiset<string>)
    requires Counted(names, used)
    ensures WithinLimit(used)
  {
  }

  /** Conversely, a flattening within the limit is what the run produces. */
  lemma {:induction false} FlattenIsWork(src: Sources, depth: nat, queue: seq<string>, used: multiset<string>, done: seq<string>)
    requires Counted(src.Names(), used) && Flatten(src, depth, queue).Some?
    requires WithinLimit(used + Flatten(src, depth, queue).value.uses)
    ensures Work(src, queue, used, done) == Ok(done + Flatten(src, depth, queue).value.args)
    decreases Budget(src.Names(), used), |queue|, 1
  {
    hide Tokens, Work, Flatten, Counted, Budget;
    CountedBudget(src.Names(), used);
    if queue == [] {
      WorkDone(src, used, done);
      FlattenNone(src, depth);
      assert done + [] == done;
    } else {
      var arg, rest := queue[0], queue[1..];
      if !IsResponse(arg) {
        WorkPlain(src, queue, used, done);
        FlattenPlain(src, depth, queue);
        var f := Flatten(src, depth, rest).value;
        FlattenIsWork(src, depth, rest, used, done + Emit(arg));
        assert done + (Emit(arg) + f.args) == done + Emit(arg) + f.args;
      } else {
        FlattenIsWorkResponse(src, depth, queue, used, done);
      }
    }
  }

  lemma {:induction false} FlattenIsWorkResponse(src: Sources, depth: nat, queue: seq<string>, used: multiset<string>, done: seq<string>)
    requires Counted(src.Names(), used) && Flatten(src, depth, queue).Some?
    requires WithinLimit(used + Flatten(src, depth, queue).value.uses) && queue != [] && IsResponse(queue[0])
    ensures Work(src, queue, used, done) == Ok(done + Flatten(src, depth, queue).value.args)
    decreases Budget(src.Names(), used), |queue|, 0
  {
    hide Tokens, Work, Flatten, Counted, Budget;
    var name, rest := queue[0][1..], queue[1..];
    FlattenNeeds(src, depth, queue);
    var inner := Tokens(src.Lookup(name).value);
    FlattenResponse(src, depth, queue);
    var f, g := Flatten(src, depth - 1, inner).value, Flatten(src, depth, rest).value;
    FlattenDeeper(src, depth - 1, inner);
    FlattenAppend(src, depth, inner, rest);
    assert used + multiset{name} + (f.uses + g.uses) == used + (f.uses + multiset{name} + g.uses);
    assert used[name] < LIMIT by {
      var all := used + (f.uses + multiset{name} + g.uses);
      assert name in all && all[name] >= used[name] + 1;
    }
    WorkResponse(src, queue, used, done);
    CountedBudget(src.Names(), used);
    FlattenIsWork(src, depth, inner + rest, used + multiset{name}, done);
  }

  /** response_expand succeeds with `out` exactly if `out` is the flattening and no name is needed more than 32 times. */
  lemma SucceedsIff(src: Sources, args: seq<string>, out: seq<string>)
    ensures Work(src, args, multiset{}, []) == Ok(out)
       <==> exists depth: nat :: Flatten(src, depth, args).Some?
              && Flatten(src, depth, args).value.args == out && WithinLimit(Flatten(src, depth, args).value.uses)
  {
    if Work(src, args, multiset{}, []) == Ok(out) {
      var depth := WorkIsFlatten(src, args, multiset{}, []);
      var f := Flatten(src, depth, args).value;
      assert [] + f.args == f.args && multiset{} + f.uses == f.uses;
    }
    forall depth: nat | Flatten(src, depth, args).Some? && Flatten(src, depth, args).value.args == out
                        && WithinLimit(Flatten(src, depth, args).value.uses)
      ensures Work(src, args, multiset{}, []) == Ok(out)
    {
      var f := Flatten(src, depth, args).value;
      assert [] + f.args == f.args && multiset{} + f.uses == f.uses;
      FlattenIsWork(src, depth, args, multiset{}, []);
    }
  }

  // --------------------------------------------------------------------- consequences

  /** No result argument is empty or still a response argument. */
  lemma {:induction false} FlattenClean(src: Sources, depth: nat, args: seq<string>)
    requires Flatten(src, depth, args).Some?
    ensures forall a :: a in Flatten(src, depth, args).value.args ==> a != "" && a[0] != '@'
    decreases depth, |args|
  {
    if args != [] {
      FlattenClean(src, depth, args[1..]);
      if IsResponse(args[0]) { FlattenClean(src, depth - 1, Tokens(src.Lookup(args[0][1..]).value)); }
    }
  }

  lemma ResultClean(src: Sources, args: seq<string>)
    requires Work(src, args, multiset{}, []).Ok?
    ensures forall a :: a in Work(src, args, multiset{}, []).args ==> a != "" && a[0] != '@'
  {
    var depth := WorkIsFlatten(src, args, multiset{}, []);
    FlattenClean(src, depth, args);
    var f := Flatten(src, depth, args).value;
    assert [] + f.args == f.args;
  }

  /** The names form a cycle: each expands to an argument list that includes the next one. */
  ghost predicate Cycle(src: Sources, c: seq<string>) {
    |c| > 0 && forall i: nat :: i < |c| ==> IncludesNext(src, c, i)
  }

  ghost predicate IncludesNext(src: Sources, c: seq<string>, i: nat) {
    i < |c| && c[i] != "" && exists text ::
      Provides(src, c[i], text) && "@" + c[if i + 1 == |c| then 0 else i + 1] in Tokens(text)
  }

  lemma {:induction false} FlattenMember(src: Sources, depth: nat, args: seq<string>, a: string)
    requires Flatten(src, depth, args).Some? && a in args
    ensures FlattenOne(src, depth, a).Some?
    decreases |args|
  {
    if a != args[0] { FlattenMember(src, depth, args[1..], a); }
  }

  lemma {:induction false} NoFlattening(src: Sources, c: seq<string>, i: nat, depth: nat, args: seq<string>)
    requires Cycle(src, c) && i < |c| && "@" + c[i] in args
    ensures Flatten(src, depth, args).None?
    decreases depth
  {
    if Flatten(src, depth, args).Some? {
      hide Tokens;
      var a := "@" + c[i];
      assert IncludesNext(src, c, i);
      FlattenMember(src, depth, args, a);
      assert a[1..] == c[i] && IsResponse(a);
      NoFlattening(src, c, if i + 1 == |c| then 0 else i + 1, depth - 1, Tokens(src.Lookup(c[i]).value));
    }
  }

  /** Response files that include each other in a cycle of any length end with an error instead of looping. */
  lemma CycleIsError(src: Sources, c: seq<string>, i: nat, args: seq<string>)
    requires Cycle(src, c) && i < |c| && "@" + c[i] in args
    ensures Work(src, args, multiset{}, []).Error?
  {
    if Work(src, args, multiset{}, []).Ok? {
      var depth := WorkIsFlatten(src, args, multiset{}, []);
      NoFlattening(src, c, i, depth, args);
    }
  }
}
