/**
  When response_expand (ldc/driver/response.cpp) fails, and with which code: by the names it
  meets in order, from the variables and files themselves.
 */
module ResponseErrors {
  import opened Options
  import opened ResponseFile
  import opened ResponseExpansion

  /** The queue from its first response argument on. */
  function FromResponse(queue: seq<string>): seq<string> {
    if queue == [] || IsResponse(queue[0]) then queue else FromResponse(queue[1..])
  }

  /**
    Replacing response arguments from the left, without any limit: names are met in this order,
    and rest is left, which begins with the next response argument.
   */
  ghost predicate Unrolls(src: Sources, queue: seq<string>, names: seq<string>, rest: seq<string>)
    decreases |names|
  {
    var q := FromResponse(queue);
    if names == [] then rest == q
    else
      && q != [] && names[0] != "" && q[0] == "@" + names[0]
      && exists text :: Provides(src, names[0], text) && Unrolls(src, Tokens(text) + q[1..], names[1..], rest)
  }

  /** What ends it: a lone `@`, a name met too often, a name that stands for nothing. */
  ghost predicate Stops(src: Sources, rest: seq<string>, met: multiset<string>, code: nat) {
    rest != [] && IsResponse(rest[0]) && var name := rest[0][1..];
      || (code == 1 && name == "")
      || (code == 2 && name != "" && met[name] >= LIMIT)
      || (code == 3 && name != "" && met[name] < LIMIT && Absent(src, name))
  }

  /** Plain arguments in front of the first response argument. */
  function Kept(queue: seq<string>): seq<string> {
    if queue == [] || IsResponse(queue[0]) then [] else Emit(queue[0]) + Kept(queue[1..])
  }

  lemma {:induction false} WorkSkips(src: Sources, queue: seq<string>, used: multiset<string>, done: seq<string>)
    requires Counted(src.Names(), used)
    ensures Work(src, queue, used, done) == Work(src, FromResponse(queue), used, done + Kept(queue))
    decreases |queue|
  {
    hide Work, Counted;
    if queue == [] || IsResponse(queue[0]) {
      assert done + [] == done;
    } else {
      WorkPlain(src, queue, used, done);
      WorkSkips(src, queue[1..], used, done + Emit(queue[0]));
      assert done + Emit(queue[0]) + Kept(queue[1..]) == done + (Emit(queue[0]) + Kept(queue[1..]));
    }
  }

  /** The names met first have been expanded first. */
  lemma NamesSplit(used: multiset<string>, names: seq<string>)
    requires names != []
    ensures used + multiset(names) == used + multiset{names[0]} + multiset(names[1..])
  {
    assert names == [names[0]] + names[1..];
  }

  /** One response argument is replaced. */
  lemma WorkExpands(src: Sources, q: seq<string>, used: multiset<string>, done: seq<string>, name: string, text: string)
    requires Counted(src.Names(), used) && q != [] && name != "" && q[0] == "@" + name
    requires used[name] < LIMIT && Provides(src, name, text)
    ensures Counted(src.Names(), used + multiset{name})
    ensures Work(src, q, used, done) == Work(src, Tokens(text) + q[1..], used + multiset{name}, done)
  {
    hide Work, Counted, Tokens;
    assert q[0][1..] == name && IsResponse(q[0]);
    LookupIs(src, name);
    WorkResponse(src, q, used, done);
  }

  /** As long as no name is met more than 32 times the run unrolls the queue. */
  lemma {:induction false} WorkUnrolls(src: Sources, queue: seq<string>, used: multiset<string>, done: seq<string>,
                                       names: seq<string>, rest: seq<string>) returns (done': seq<string>)
    requires Counted(src.Names(), used) && Unrolls(src, queue, names, rest) && WithinLimit(used + multiset(names))
    ensures Counted(src.Names(), used + multiset(names))
    ensures Work(src, queue, used, done) == Work(src, rest, used + multiset(names), done')
    decreases |names|
  {
    hide Work, Counted, Tokens, Provides;
    var q := FromResponse(queue);
    WorkSkips(src, queue, used, done);
    done' := done + Kept(queue);
    if names == [] {
      assert used + multiset(names) == used;
    } else {
      var text :| Provides(src, names[0], text) && Unrolls(src, Tokens(text) + q[1..], names[1..], rest);
      NamesSplit(used, names);
      assert used[names[0]] < LIMIT by {
        var all := used + multiset(names);
        assert names[0] in all && all[names[0]] >= used[names[0]] + 1;
      }
      WorkExpands(src, q, used, done', names[0], text);
      done' := WorkUnrolls(src, Tokens(text) + q[1..], used + multiset{names[0]}, done', names[1..], rest);
    }
  }

  lemma StopsWork(src: Sources, rest: seq<string>, used: multiset<string>, done: seq<string>, code: nat)
    requires Counted(src.Names(), used) && Stops(src, rest, used, code)
    ensures Work(src, rest, used, done) == Error(code)
  {
    hide Work, Counted, Tokens;
    LookupIs(src, rest[0][1..]);
    WorkResponse(src, rest, used, done);
  }

  /** A run that fails has met names, none too often, and then what ends it. */
  lemma {:induction false} ErrorUnrolls(src: Sources, queue: seq<string>, used: multiset<string>, done: seq<string>)
    returns (names: seq<string>, rest: seq<string>)
    requires Counted(src.Names(), used) && Work(src, queue, used, done).Error?
    ensures Unrolls(src, queue, names, rest) && WithinLimit(used + multiset(names))
    ensures Stops(src, rest, used + multiset(names), Work(src, queue, used, done).code)
    decreases Budget(src.Names(), used), |queue|
  {
    hide Work, Counted, Tokens, Budget;
    CountedBudget(src.Names(), used);
    WorkDone(src, used, done);
    if !IsResponse(queue[0]) {
      WorkPlain(src, queue, used, done);
      names, rest := ErrorUnrolls(src, queue[1..], used, done + Emit(queue[0]));
    } else {
      var name := queue[0][1..];
      WorkResponse(src, queue, used, done);
      LookupIs(src, name);
      if name == "" || used[name] >= LIMIT || src.Lookup(name).None? {
        CountedWithin(src.Names(), used);
        names, rest := [], queue;
        assert used + multiset(names) == used;
      } else {
        var text := src.Lookup(name).value;
        var later;
        later, rest := ErrorUnrolls(src, Tokens(text) + queue[1..], used + multiset{name}, done);
        names := [name] + later;
        assert names[1..] == later && queue[0] == "@" + name;
        NamesSplit(used, names);
      }
    }
  }

  /**
    The error codes.  Code 1, 2 or 3 is returned exactly if the names met in order, none of them
    more than 32 times, lead to a lone `@`, to a name met 32 times already, or to a name with
    neither a non-empty variable nor a file.
   */
  lemma FailsIff(src: Sources, args: seq<string>, code: nat)
    ensures Work(src, args, multiset{}, []) == Error(code)
       <==> exists names, rest ::
              Unrolls(src, args, names, rest) && WithinLimit(multiset(names)) && Stops(src, rest, multiset(names), code)
  {
    hide Work, Unrolls, Stops, Tokens;
    NothingCounted(src.Names());
    forall names: seq<string> ensures multiset{} + multiset(names) == multiset(names) { }
    if Work(src, args, multiset{}, []) == Error(code) {
      var names, rest := ErrorUnrolls(src, args, multiset{}, []);
    }
    forall names, rest | Unrolls(src, args, names, rest) && WithinLimit(multiset(names)) && Stops(src, rest, multiset(names), code)
      ensures Work(src, args, multiset{}, []) == Error(code)
    {
      var done := WorkUnrolls(src, args, multiset{}, [], names, rest);
      StopsWork(src, rest, multiset(names), done, code);
    }
  }

  // --------------------------------------------------------------------------- the limit

  function Copies(arg: string, k: nat): seq<string> { if k == 0 then [] else [arg] + Copies(arg, k - 1) }

  lemma {:induction false} LeftTo(src: Sources, name: string, k: nat, used: multiset<string>, done: seq<string>)
    requires Counted(src.Names(), used) && name != "" && Provides(src, name, "") && used[name] <= 32
    ensures Work(src, Copies("@" + name, k), used, done) == if used[name] + k <= 32 then Ok(done) else Error(2)
    decreases k
  {
    hide Work, Counted, Tokens, Provides;
    if k == 0 {
      WorkDone(src, used, done);
    } else {
      CopiesFirst(name, k);
      var q, rest := Copies("@" + name, k), Copies("@" + name, k - 1);
      if used[name] < 32 {
        WorkExpands(src, q, used, done, name, "");
        NoTokens(rest);
        LeftTo(src, name, k - 1, used + multiset{name}, done);
      } else {
        WorkResponse(src, q, used, done);
      }
    }
  }

  lemma CopiesFirst(name: string, k: nat)
    requires k > 0 && name != ""
    ensures var q := Copies("@" + name, k);
      q != [] && q[0] == "@" + name && q[1..] == Copies("@" + name, k - 1) && IsResponse(q[0]) && q[0][1..] == name
  {
  }

  lemma NoTokens(rest: seq<string>)
    ensures Tokens("") + rest == rest
  {
  }

  /** The same name may be expanded 32 times and no more. */
  lemma ThirtyTwoUses(src: Sources, name: string, k: nat)
    requires name != "" && Provides(src, name, "")
    ensures Work(src, Copies("@" + name, k), multiset{}, []) == if k <= 32 then Ok([]) else Error(2)
  {
    NothingCounted(src.Names());
    LeftTo(src, name, k, multiset{}, []);
  }
}
