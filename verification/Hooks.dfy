/** Hook registration and dispatch. A handler is any function of the state it can reach, and returns
    the new state with its value; handlers that register on the hook being run are not modelled. */
module Hooks {
  import opened Options

  type Handler<!S, R> = S -> (S, R)

  /** `ns_LINK_name_t`. A predecessor or successor list may be absent. */
  datatype Link<!S, R> = Link(
    func: Handler<S, R>, name: string,
    predecessors: Option<seq<string>>, successors: Option<seq<string>>, order: int)

  /** What one call to the registration function passes, with the module then registering. */
  datatype Registration<!S, R> = Registration(
    func: Handler<S, R>,
    predecessors: Option<seq<string>>, successors: Option<seq<string>>, order: int, registrant: string)

  function LinkOf<S, R>(r: Registration<S, R>): Link<S, R> {
    Link(r.func, r.registrant, r.predecessors, r.successors, r.order)
  }

  /** The array of a hook once it exists; `nelts` is its length. */
  class LinkArray<T> {
    var elts: seq<T>

    /** `apr_array_make` */
    constructor ()
      ensures elts == []
    {
      elts := [];
    }

    /** `apr_array_push`, followed by filling in the new element. */
    method Push(x: T)
      modifies this
      ensures elts == old(elts) + [x]
    {
      elts := elts + [x];
    }
  }

  /** The lists `apr_hook_debug_show` prints. */
  type Shown = (Option<seq<string>>, Option<seq<string>>)

  /** A hook as others see it: its links if its array exists, the number of links the array held at
      each `apr_hook_sort_register`, and what was printed for debugging. */
  datatype HookState<!S, R> = HookState(links: Option<seq<Link<S, R>>>, sorted: seq<nat>, shown: seq<Shown>)

  function Registered<S, R>(h: HookState<S, R>, r: Registration<S, R>, debug: bool): HookState<S, R> {
    var shown := if debug then h.shown + [(r.predecessors, r.successors)] else h.shown;
    match h.links
    case None => HookState(Some([LinkOf(r)]), h.sorted + [0], shown)
    case Some(links) => HookState(Some(links + [LinkOf(r)]), h.sorted, shown)
  }

  /** How a run ended: the value returned, the state left, and how many handlers were called. */
  datatype Outcome<S, R> = Outcome(rv: R, state: S, called: nat)

  class Hook<S, R(==)> {
    var links: LinkArray?<Link<S, R>>
    var sorted: seq<nat>     // nelts at each apr_hook_sort_register
    var shown: seq<Shown>    // apr_hook_debug_show

    constructor ()
      ensures State() == HookState(None, [], [])
    {
      links, sorted, shown := null, [], [];
    }

    ghost function State(): HookState<S, R>
      reads this, links
    {
      HookState(if links == null then None else Some(links.elts), sorted, shown)
    }

    /** The registered links, in order; none for an absent array. */
    ghost function Links(): seq<Link<S, R>>
      reads this, links
    {
      if links == null then [] else links.elts
    }

    /** APR_IMPLEMENT_EXTERNAL_HOOK_BASE */
    method Register(r: Registration<S, R>, debugEnabled: bool)
      modifies this, links
      ensures State() == Registered(old(State()), r, debugEnabled)
      ensures old(links) != null ==> links == old(links)
      ensures old(links) == null ==> fresh(links)
    {
      if links == null {
        links := new LinkArray();
        sorted := sorted + [|links.elts|];
        assert links.elts + [LinkOf(r)] == [LinkOf(r)];
      }
      links.Push(LinkOf(r));
      if debugEnabled {
        shown := shown + [(r.predecessors, r.successors)];
      }
    }

    /** Registrations one after the other, each with debugging on or off. */
    method RegisterEach(rs: seq<(Registration<S, R>, bool)>)
      modifies this, links
      ensures State() == RegisterAll(old(State()), rs)
      ensures old(links) != null ==> links == old(links)
      ensures old(links) == null ==> links == null || fresh(links)
    {
      var i := 0;
      while i < |rs|
        invariant 0 <= i <= |rs| && State() == RegisterAll(old(State()), rs[..i])
        invariant old(links) != null ==> links == old(links)
        invariant old(links) == null ==> links == null || fresh(links)
      {
        Register(rs[i].0, rs[i].1);
        i := i + 1;
        assert rs[..i][..i - 1] == rs[..i - 1];
      }
      assert rs[..i] == rs;
    }

    /** The life of a hook: whatever is registered on an unused hook is called by a run, each handler
        once, in the order registered; the array was announced once if anything was registered. */
    method RegisterAndRun(rs: seq<(Registration<S, R>, bool)>, s: S) returns (s': S, calls: seq<nat>)
      requires State() == HookState(None, [], [])
      modifies this
      ensures |Links()| == |rs| && forall i :: 0 <= i < |rs| ==> Holds(Links()[i], rs[i].0)
      ensures sorted == if rs == [] then [] else [0]
      ensures ShowsEach(shown, rs)
      ensures s' == StateAfter(Links(), s, |rs|) && calls == seq(|rs|, i => i)
    {
      RegisterEach(rs);
      RegistrationOrder(rs);
      RegistrationShows(rs);
      s', calls := RunVoid(s);
    }

    /** APR_IMPLEMENT_EXTERNAL_HOOK_VOID */
    method RunVoid(s: S) returns (s': S, calls: seq<nat>)
      ensures s' == StateAfter(Links(), s, |Links()|)
      ensures calls == seq(|Links()|, i => i)
    {
      s', calls := s, [];
      if links != null {
        var n := 0;
        while n < |links.elts|
          invariant 0 <= n <= |links.elts|
          invariant s' == StateAfter(links.elts, s, n)
          invariant calls == seq(n, i => i)
        {
          s' := links.elts[n].func(s').0;
          calls := calls + [n];
          n := n + 1;
        }
      }
    }

    /** APR_IMPLEMENT_EXTERNAL_HOOK_RUN_ALL */
    method RunAllExternal(s: S, ok: R, decline: R) returns (o: Outcome<S, R>)
      ensures IsRunAll(Links(), s, ok, decline, o)
    {
      var rv, state, called := ok, s, 0;
      if links != null {
        var n := 0;
        while n < |links.elts|
          invariant 0 <= n <= |links.elts| && called == n && rv == ok
          invariant state == StateAfter(links.elts, s, n)
          invariant forall i :: 0 <= i < n ==> GoesOn(Returned(links.elts, s, i), ok, decline)
        {
          var result := links.elts[n].func(state);
          state, rv, called := result.0, result.1, called + 1;
          if rv != ok && rv != decline {
            break;
          }
          rv := ok;
          n := n + 1;
        }
      }
      return Outcome(rv, state, called);
    }

    /** APR_IMPLEMENT_OPTIONAL_HOOK_RUN_ALL, on the array `apr_optional_hook_get` finds. */
    method RunAllOptional(s: S, ok: R, decline: R) returns (o: Outcome<S, R>)
      ensures IsRunAll(Links(), s, ok, decline, o)
    {
      if links == null {
        return Outcome(ok, s, 0);
      }
      var state, n := s, 0;
      while n < |links.elts|
        invariant 0 <= n <= |links.elts|
        invariant state == StateAfter(links.elts, s, n)
        invariant forall i :: 0 <= i < n ==> GoesOn(Returned(links.elts, s, i), ok, decline)
      {
        var result := links.elts[n].func(state);
        state := result.0;
        if result.1 != ok && result.1 != decline {
          return Outcome(result.1, state, n + 1);
        }
        n := n + 1;
      }
      return Outcome(ok, state, n);
    }

    /** APR_IMPLEMENT_EXTERNAL_HOOK_RUN_FIRST */
    method RunFirst(s: S, decline: R) returns (o: Outcome<S, R>)
      ensures IsRunFirst(Links(), s, decline, o)
    {
      var rv, state, called := decline, s, 0;
      if links != null {
        var n := 0;
        while n < |links.elts|
          invariant 0 <= n <= |links.elts| && called == n && rv == decline
          invariant state == StateAfter(links.elts, s, n)
          invariant forall i :: 0 <= i < n ==> Returned(links.elts, s, i) == decline
        {
          var result := links.elts[n].func(state);
          state, rv, called := result.0, result.1, called + 1;
          if rv != decline {
            break;
          }
          n := n + 1;
        }
      }
      return Outcome(rv, state, called);
    }

    /** The two run-all loops, written independently, agree on the value returned, the state reached
        and the handlers called, for every array of links and also without one. */
    method RunAllAgree(s: S, ok: R, decline: R) returns (external: Outcome<S, R>, optional: Outcome<S, R>)
      ensures external == optional
    {
      external := RunAllExternal(s, ok, decline);
      optional := RunAllOptional(s, ok, decline);
      RunAllUnique(Links(), s, ok, decline, external, optional);
    }
  }

  // ---- what a run is ----

  /** The state after the first n handlers, called in order. */
  ghost function StateAfter<S, R>(hs: seq<Link<S, R>>, s: S, n: nat): S
    requires n <= |hs|
  {
    if n == 0 then s else hs[n - 1].func(StateAfter(hs, s, n - 1)).0
  }

  /** The value handler n returns when all before it have been called. */
  ghost function Returned<S, R>(hs: seq<Link<S, R>>, s: S, n: nat): R
    requires n < |hs|
  {
    hs[n].func(StateAfter(hs, s, n)).1
  }

  predicate GoesOn<R(==)>(rv: R, ok: R, decline: R) {
    rv == ok || rv == decline
  }

  /** The handlers called are a prefix in order, and the last of them is the first whose value is
      neither ok nor decline; if there is none, all are called and the value is ok. */
  ghost predicate IsRunAll<S, R>(hs: seq<Link<S, R>>, s: S, ok: R, decline: R, o: Outcome<S, R>) {
    && o.called <= |hs| && o.state == StateAfter(hs, s, o.called)
    && (forall i :: 0 <= i < o.called - 1 ==> GoesOn(Returned(hs, s, i), ok, decline))
    && (if o.called > 0 && !GoesOn(Returned(hs, s, o.called - 1), ok, decline)
        then o.rv == Returned(hs, s, o.called - 1)
        else o.called == |hs| && o.rv == ok)
  }

  /** The same for the first value that is not decline. */
  ghost predicate IsRunFirst<S, R>(hs: seq<Link<S, R>>, s: S, decline: R, o: Outcome<S, R>) {
    && o.called <= |hs| && o.state == StateAfter(hs, s, o.called)
    && (forall i :: 0 <= i < o.called - 1 ==> Returned(hs, s, i) == decline)
    && (if o.called > 0 && Returned(hs, s, o.called - 1) != decline
        then o.rv == Returned(hs, s, o.called - 1)
        else o.called == |hs| && o.rv == decline)
  }

  /** That determines the run. */
  lemma RunAllUnique<S, R>(hs: seq<Link<S, R>>, s: S, ok: R, decline: R, o: Outcome<S, R>, o': Outcome<S, R>)
    requires IsRunAll(hs, s, ok, decline, o) && IsRunAll(hs, s, ok, decline, o')
    ensures o == o'
  {
  }

  lemma RunFirstUnique<S, R>(hs: seq<Link<S, R>>, s: S, decline: R, o: Outcome<S, R>, o': Outcome<S, R>)
    requires IsRunFirst(hs, s, decline, o) && IsRunFirst(hs, s, decline, o')
    ensures o == o'
  {
  }

  // ---- dispatch as an algebra ----

  lemma {:induction false} StateAfterConcat<S, R>(hs: seq<Link<S, R>>, ks: seq<Link<S, R>>, s: S, n: nat)
    requires n <= |hs| + |ks|
    ensures StateAfter(hs + ks, s, n) ==
            if n <= |hs| then StateAfter(hs, s, n) else StateAfter(ks, StateAfter(hs, s, |hs|), n - |hs|)
  {
    if n > 0 {
      StateAfterConcat(hs, ks, s, n - 1);
      if n == |hs| + 1 {
        assert (hs + ks)[n - 1] == ks[0];
      }
    }
  }

  lemma ReturnedConcat<S, R>(hs: seq<Link<S, R>>, ks: seq<Link<S, R>>, s: S, n: nat)
    requires n < |hs| + |ks|
    ensures Returned(hs + ks, s, n) ==
            if n < |hs| then Returned(hs, s, n) else Returned(ks, StateAfter(hs, s, |hs|), n - |hs|)
  {
    StateAfterConcat(hs, ks, s, n);
  }

  lemma Calls<S, R>(hs: seq<Link<S, R>>, ks: seq<Link<S, R>>, s: S, n: nat)
    requires n <= |hs| + |ks|
    ensures StateAfter(hs + ks, s, n) ==
            if n <= |hs| then StateAfter(hs, s, n) else StateAfter(ks, StateAfter(hs, s, |hs|), n - |hs|)
    ensures forall i :: 0 <= i < n && i < |hs| ==> Returned(hs + ks, s, i) == Returned(hs, s, i)
    ensures forall i :: |hs| <= i < n ==> Returned(hs + ks, s, i) == Returned(ks, StateAfter(hs, s, |hs|), i - |hs|)
  {
    StateAfterConcat(hs, ks, s, n);
    forall i | 0 <= i < n
      ensures Returned(hs + ks, s, i) ==
              if i < |hs| then Returned(hs, s, i) else Returned(ks, StateAfter(hs, s, |hs|), i - |hs|)
    {
      ReturnedConcat(hs, ks, s, i);
    }
  }

  function Then<S, R>(first: Outcome<S, R>, second: Outcome<S, R>): Outcome<S, R> {
    Outcome(second.rv, second.state, first.called + second.called)
  }

  /** Running all of a concatenation is running all of the first part and then, only if that gave
      ok, all of the second from the state reached. */
  lemma RunAllConcat<S, R>(hs: seq<Link<S, R>>, ks: seq<Link<S, R>>, s: S, ok: R, decline: R,
                           first: Outcome<S, R>, second: Outcome<S, R>)
    requires IsRunAll(hs, s, ok, decline, first) && IsRunAll(ks, first.state, ok, decline, second)
    ensures IsRunAll(hs + ks, s, ok, decline, if first.rv == ok then Then(first, second) else first)
  {
    if first.rv != ok {
      Calls(hs, ks, s, first.called);
    } else {
      RunAllBoth(hs, ks, s, ok, decline, first, second);
    }
  }

  /** Whether the last handler called decides. */
  lemma RunAllBothEnd<S, R>(hs: seq<Link<S, R>>, ks: seq<Link<S, R>>, s: S, ok: R, decline: R,
                            first: Outcome<S, R>, second: Outcome<S, R>)
    requires IsRunAll(hs, s, ok, decline, first) && IsRunAll(ks, first.state, ok, decline, second) && first.rv == ok
    ensures var n := |hs| + second.called;
            if n > 0 && !GoesOn(Returned(hs + ks, s, n - 1), ok, decline)
            then second.rv == Returned(hs + ks, s, n - 1)
            else second.called == |ks| && second.rv == ok
  {
    var n := |hs| + second.called;
    if second.called > 0 {
      ReturnedConcat(hs, ks, s, n - 1);
    } else if n > 0 {
      ReturnedConcat(hs, ks, s, n - 1);
      assert GoesOn(Returned(hs, s, n - 1), ok, decline);
    }
  }

  lemma RunAllBoth<S, R>(hs: seq<Link<S, R>>, ks: seq<Link<S, R>>, s: S, ok: R, decline: R,
                         first: Outcome<S, R>, second: Outcome<S, R>)
    requires IsRunAll(hs, s, ok, decline, first) && IsRunAll(ks, first.state, ok, decline, second) && first.rv == ok
    ensures IsRunAll(hs + ks, s, ok, decline, Then(first, second))
  {
    var n := |hs| + second.called;
    assert first.called == |hs|;
    forall i | 0 <= i < n - 1
      ensures GoesOn(Returned(hs + ks, s, i), ok, decline)
    {
      GoesOnThrough(hs, ks, s, ok, decline, first, second, i);
    }
    StateAfterConcat(hs, ks, s, n);
    RunAllBothEnd(hs, ks, s, ok, decline, first, second);
  }

  lemma GoesOnThrough<S, R>(hs: seq<Link<S, R>>, ks: seq<Link<S, R>>, s: S, ok: R, decline: R,
                            first: Outcome<S, R>, second: Outcome<S, R>, i: nat)
    requires IsRunAll(hs, s, ok, decline, first) && IsRunAll(ks, first.state, ok, decline, second) && first.rv == ok
    requires i + 1 < |hs| + second.called
    ensures GoesOn(Returned(hs + ks, s, i), ok, decline)
  {
    ReturnedConcat(hs, ks, s, i);
  }

  lemma DeclinesThrough<S, R>(hs: seq<Link<S, R>>, ks: seq<Link<S, R>>, s: S, decline: R,
                              first: Outcome<S, R>, second: Outcome<S, R>, i: nat)
    requires IsRunFirst(hs, s, decline, first) && IsRunFirst(ks, first.state, decline, second) && first.rv == decline
    requires i + 1 < |hs| + second.called
    ensures Returned(hs + ks, s, i) == decline
  {
    ReturnedConcat(hs, ks, s, i);
  }

  lemma RunFirstBothEnd<S, R>(hs: seq<Link<S, R>>, ks: seq<Link<S, R>>, s: S, decline: R,
                              first: Outcome<S, R>, second: Outcome<S, R>)
    requires IsRunFirst(hs, s, decline, first) && IsRunFirst(ks, first.state, decline, second) && first.rv == decline
    ensures var n := |hs| + second.called;
            if n > 0 && Returned(hs + ks, s, n - 1) != decline
            then second.rv == Returned(hs + ks, s, n - 1)
            else second.called == |ks| && second.rv == decline
  {
    var n := |hs| + second.called;
    if second.called > 0 {
      ReturnedConcat(hs, ks, s, n - 1);
    } else if n > 0 {
      ReturnedConcat(hs, ks, s, n - 1);
      assert Returned(hs, s, n - 1) == decline;
    }
  }

  lemma RunFirstBoth<S, R>(hs: seq<Link<S, R>>, ks: seq<Link<S, R>>, s: S, decline: R,
                           first: Outcome<S, R>, second: Outcome<S, R>)
    requires IsRunFirst(hs, s, decline, first) && IsRunFirst(ks, first.state, decline, second) && first.rv == decline
    ensures IsRunFirst(hs + ks, s, decline, Then(first, second))
  {
    var n := |hs| + second.called;
    assert first.called == |hs|;
    forall i | 0 <= i < n - 1
      ensures Returned(hs + ks, s, i) == decline
    {
      DeclinesThrough(hs, ks, s, decline, first, second, i);
    }
    StateAfterConcat(hs, ks, s, n);
    RunFirstBothEnd(hs, ks, s, decline, first, second);
  }

  /** Running a concatenation until the first answer is running the first part and then, only if it
      declined, the second: decline is the unit. */
  lemma RunFirstConcat<S, R>(hs: seq<Link<S, R>>, ks: seq<Link<S, R>>, s: S, decline: R,
                             first: Outcome<S, R>, second: Outcome<S, R>)
    requires IsRunFirst(hs, s, decline, first) && IsRunFirst(ks, first.state, decline, second)
    ensures IsRunFirst(hs + ks, s, decline, if first.rv == decline then Then(first, second) else first)
  {
    if first.rv != decline {
      Calls(hs, ks, s, first.called);
    } else {
      RunFirstBoth(hs, ks, s, decline, first, second);
    }
  }

  /** The two disciplines call the same handlers exactly when the first answer other than decline is
      not ok, or comes from the last handler; then they agree up to mapping decline to ok. */
  lemma RunAllAgainstFirst<S, R>(hs: seq<Link<S, R>>, s: S, ok: R, decline: R, all: Outcome<S, R>, first: Outcome<S, R>)
    requires IsRunAll(hs, s, ok, decline, all) && IsRunFirst(hs, s, decline, first)
    ensures all.called == first.called <==> (first.rv != ok || first.called == |hs|)
    ensures all.called == first.called ==>
              all.state == first.state && all.rv == (if first.rv == decline then ok else first.rv)
  {
  }

  // ---- registration ----

  /** The link has the registration's own function, lists and order, and the name of the registrant. */
  ghost predicate Holds<S, R>(link: Link<S, R>, r: Registration<S, R>) {
    && link.func == r.func && link.predecessors == r.predecessors && link.successors == r.successors
    && link.order == r.order && link.name == r.registrant
  }

  /** How many of the first n registrations were made with debugging on. */
  function Debugged<S, R>(rs: seq<(Registration<S, R>, bool)>, n: nat): nat
    requires n <= |rs|
  {
    if n == 0 then 0 else Debugged(rs, n - 1) + (if rs[n - 1].1 then 1 else 0)
  }

  lemma {:induction false} DebuggedGrows<S, R>(rs: seq<(Registration<S, R>, bool)>, i: nat, n: nat)
    requires i < n <= |rs| && rs[i].1
    ensures Debugged(rs, i) < Debugged(rs, n)
  {
    if i < n - 1 {
      DebuggedGrows(rs, i, n - 1);
    }
  }

  lemma {:induction false} DebuggedPrefix<S, R>(rs: seq<(Registration<S, R>, bool)>, m: nat, n: nat)
    requires n <= m <= |rs|
    ensures Debugged(rs[..m], n) == Debugged(rs, n)
  {
    if n > 0 {
      DebuggedPrefix(rs, m, n - 1);
    }
  }

  /** What was printed: for each registration with debugging on, in order, its predecessors and then its
      successors. */
  ghost predicate ShowsEach<S, R>(shown: seq<Shown>, rs: seq<(Registration<S, R>, bool)>) {
    && |shown| == Debugged(rs, |rs|)
    && forall i :: 0 <= i < |rs| && rs[i].1 ==>
         Debugged(rs, i) < |shown| && shown[Debugged(rs, i)] == (rs[i].0.predecessors, rs[i].0.successors)
  }

  /** The hook after registrations made one after the other, each with debugging on or off. */
  function RegisterAll<S, R>(h: HookState<S, R>, rs: seq<(Registration<S, R>, bool)>): HookState<S, R> {
    if rs == [] then h else Registered(RegisterAll(h, rs[..|rs| - 1]), rs[|rs| - 1].0, rs[|rs| - 1].1)
  }

  /** From an unused hook, any sequence of registrations leaves all links in the order registered,
      each with its own function, lists, order and name; the array was announced for sorting exactly
      once, while it was still empty. */
  lemma {:induction false} RegistrationOrder<S, R>(rs: seq<(Registration<S, R>, bool)>)
    ensures var h := RegisterAll(HookState(None, [], []), rs);
            && (rs == [] ==> h == HookState(None, [], []))
            && (rs != [] ==>
                  && h.links.Some? && |h.links.value| == |rs|
                  && (forall i :: 0 <= i < |rs| ==> Holds(h.links.value[i], rs[i].0))
                  && h.sorted == [0])
  {
    if rs != [] {
      RegistrationOrder(rs[..|rs| - 1]);
    }
  }

  lemma ShowsNext<S, R>(shown: seq<Shown>, rs: seq<(Registration<S, R>, bool)>, next: Shown)
    requires rs != [] && ShowsEach(shown, rs[..|rs| - 1])
    requires next == (rs[|rs| - 1].0.predecessors, rs[|rs| - 1].0.successors)
    ensures ShowsEach(if rs[|rs| - 1].1 then shown + [next] else shown, rs)
  {
    var t, n := rs[..|rs| - 1], |rs| - 1;
    DebuggedPrefix(rs, n, n);
    forall i | 0 <= i < n && rs[i].1
      ensures Debugged(rs, i) < |shown| && shown[Debugged(rs, i)] == (rs[i].0.predecessors, rs[i].0.successors)
    {
      DebuggedPrefix(rs, n, i);
      assert t[i] == rs[i];
    }
  }

  lemma {:induction false} RegistrationShows<S, R>(rs: seq<(Registration<S, R>, bool)>)
    ensures ShowsEach(RegisterAll(HookState(None, [], []), rs).shown, rs)
  {
    if rs != [] {
      var t, last := rs[..|rs| - 1], rs[|rs| - 1].0;
      RegistrationShows(t);
      ShowsNext(RegisterAll(HookState(None, [], []), t).shown, rs, (last.predecessors, last.successors));
    }
  }
}
